/** Several writers on one connection. hci.Conn.Write takes no lock across the fragments of a PDU, so the packets of
    channels that write at the same time, and of signalling PDUs, reach the controller in any order of turns. */
module Interleavings {
  import opened Bytes
  import opened Frames
  import opened AclPackets
  import opened Recombination

  /** A queue without its first element. */
  function Advance<T>(queues: seq<seq<T>>, w: nat): (r: seq<seq<T>>)
    requires w < |queues| && queues[w] != []
    ensures |r| == |queues|
  {
    queues[w := queues[w][1..]]
  }

  /** One writer writes one packet each turn, until no writer has anything left. */
  predicate Schedule(queues: seq<seq<AclPacket>>, turns: seq<nat>)
    decreases |turns|
  {
    if turns == [] then forall v :: 0 <= v < |queues| ==> queues[v] == []
    else turns[0] < |queues| && queues[turns[0]] != [] && Schedule(Advance(queues, turns[0]), turns[1..])
  }

  function Interleave(queues: seq<seq<AclPacket>>, turns: seq<nat>): seq<AclPacket>
    requires Schedule(queues, turns)
    decreases |turns|
  {
    if turns == [] then []
    else [queues[turns[0]][0]] + Interleave(Advance(queues, turns[0]), turns[1..])
  }

  /** The writer is in the middle of a PDU. */
  predicate Begun(queue: seq<AclPacket>) {
    queue != [] && queue[0].boundary == CONTINUATION
  }

  /** No packet is written while another writer is in the middle of a PDU. */
  predicate Apart(queues: seq<seq<AclPacket>>, turns: seq<nat>)
    requires Schedule(queues, turns)
    decreases |turns|
  {
    turns == [] ||
    ((forall v :: 0 <= v < |queues| && v != turns[0] ==> !Begun(queues[v]))
     && Apart(Advance(queues, turns[0]), turns[1..]))
  }

  /** The PDUs of all writers in the order in which they are begun. */
  function InOrder(queues: seq<seq<AclPacket>>, todo: seq<seq<seq<Byte>>>, turns: seq<nat>): seq<seq<Byte>>
    requires Schedule(queues, turns) && |todo| == |queues|
    decreases |turns|
  {
    if turns == [] then []
    else
      var w := turns[0];
      if Begun(queues[w]) || todo[w] == [] then InOrder(Advance(queues, w), todo, turns[1..])
      else [todo[w][0]] + InOrder(Advance(queues, w), Advance(todo, w), turns[1..])
  }

  /** Each writer has its own whole PDUs to write and its own piece size, the ACLMTU for Write, no limit for
      WritePacket. */
  ghost predicate Ready(handle: Uint16, queues: seq<seq<AclPacket>>, todo: seq<seq<seq<Byte>>>, mtus: seq<nat>) {
    && |todo| == |mtus| == |queues|
    && forall v :: 0 <= v < |queues| ==> Waiting(handle, queues[v], todo[v], mtus[v])
  }

  predicate Whole(pdus: seq<seq<Byte>>, mtu: nat) {
    mtu > 0 && forall i :: 0 <= i < |pdus| ==> SelfDelimiting(pdus[i])
  }

  /** One writer, between PDUs. */
  predicate Waiting(handle: Uint16, queue: seq<AclPacket>, pdus: seq<seq<Byte>>, mtu: nat) {
    Whole(pdus, mtu) && queue == AllFragments(handle, pdus, mtu)
  }

  /** What is left of a writer's queue when k bytes of a PDU are written. */
  function Tail(handle: Uint16, pdu: seq<Byte>, k: nat, pdus: seq<seq<Byte>>, mtu: nat): seq<AclPacket>
    requires mtu > 0 && k <= |pdu|
  {
    Label(handle, Chunks(pdu[k..], mtu), false) + AllFragments(handle, pdus, mtu)
  }

  /** Where the next packet after k bytes ends. */
  function After(pdu: seq<Byte>, k: nat, mtu: nat): nat {
    if k + mtu >= |pdu| then |pdu| else k + mtu
  }

  lemma NextOfTail(handle: Uint16, pdu: seq<Byte>, k: nat, pdus: seq<seq<Byte>>, mtu: nat)
    requires mtu > 0 && k < |pdu|
    ensures var q := Tail(handle, pdu, k, pdus, mtu); var next := After(pdu, k, mtu);
            && q != [] && q[0] == AclPacket(CONTINUATION, 0, handle, pdu[k..next])
            && q[1..] == Tail(handle, pdu, next, pdus, mtu)
  {
    var next := After(pdu, k, mtu);
    NextPiece(pdu, mtu, k);
    assert Rest(pdu, k + mtu) == pdu[next..];
    var more := Chunks(pdu[next..], mtu);
    assert Chunks(pdu[k..], mtu) == [pdu[k..next]] + more;
    LabelCons(handle, pdu[k..next], more, false);
    HeadOfAppend(AclPacket(CONTINUATION, 0, handle, pdu[k..next]), Label(handle, more, false),
                 AllFragments(handle, pdus, mtu));
  }

  lemma LabelCons(handle: Uint16, piece: seq<Byte>, pieces: seq<seq<Byte>>, start: bool)
    ensures Label(handle, [piece] + pieces, start)
            == [AclPacket(if start then FIRST_FROM_HOST else CONTINUATION, 0, handle, piece)]
               + Label(handle, pieces, false)
  {
  }

  lemma HeadOfAppend<T>(x: T, a: seq<T>, b: seq<T>)
    ensures (([x] + a) + b)[0] == x && (([x] + a) + b)[1..] == a + b
  {
  }

  lemma NextOfWaiting(handle: Uint16, queue: seq<AclPacket>, pdus: seq<seq<Byte>>, mtu: nat)
    requires Waiting(handle, queue, pdus, mtu)
    ensures !Begun(queue) && (queue == [] <==> pdus == [])
    ensures pdus != [] ==>
              && queue[0] == AclPacket(FIRST_FROM_HOST, 0, handle, pdus[0][..After(pdus[0], 0, mtu)])
              && queue[1..] == Tail(handle, pdus[0], After(pdus[0], 0, mtu), pdus[1..], mtu)
  {
    if pdus != [] {
      var pdu := pdus[0];
      var next := After(pdu, 0, mtu);
      NextPiece(pdu, mtu, 0);
      assert Rest(pdu, 0) == pdu && Rest(pdu, 0 + mtu) == pdu[next..];
      var more := Chunks(pdu[next..], mtu);
      assert Chunks(pdu, mtu) == [pdu[..next]] + more;
      LabelCons(handle, pdu[..next], more, true);
      HeadOfAppend(AclPacket(FIRST_FROM_HOST, 0, handle, pdu[..next]), Label(handle, more, false),
                   AllFragments(handle, pdus[1..], mtu));
    }
  }

  /** Writer w has written k bytes of a PDU, possibly all, and the other writers are between PDUs. */
  ghost predicate Midway(handle: Uint16, queues: seq<seq<AclPacket>>, todo: seq<seq<seq<Byte>>>, mtus: seq<nat>,
                         w: nat, pdu: seq<Byte>, k: nat) {
    && |todo| == |mtus| == |queues| && w < |queues|
    && SelfDelimiting(pdu) && 0 < k <= |pdu|
    && (forall v :: 0 <= v < |queues| && v != w ==> Waiting(handle, queues[v], todo[v], mtus[v]))
    && Whole(todo[w], mtus[w]) && queues[w] == Tail(handle, pdu, k, todo[w], mtus[w])
  }

  /** What the far end has buffered then. */
  function Buffered(pdu: seq<Byte>, k: nat): seq<Byte>
    requires k <= |pdu|
  {
    if k < |pdu| then pdu[..k] else []
  }

  lemma TailOfWhole(handle: Uint16, pdu: seq<Byte>, pdus: seq<seq<Byte>>, mtu: nat)
    requires Whole(pdus, mtu)
    ensures Waiting(handle, Tail(handle, pdu, |pdu|, pdus, mtu), pdus, mtu)
  {
    assert pdu[|pdu|..] == [];
  }

  /** The first packet of a PDU, at a far end that has k bytes of another one. */
  lemma StartArrives(handle: Uint16, pdu: seq<Byte>, k: nat, next: seq<Byte>, mtu: nat)
    requires SelfDelimiting(pdu) && 0 < k <= |pdu| && SelfDelimiting(next) && mtu > 0
    ensures var end := After(next, 0, mtu);
            var (buf, out) := Recombine(handle, Buffered(pdu, k),
                                        Relay(AclPacket(FIRST_FROM_HOST, 0, handle, next[..end])));
            && (k < |pdu| ==> out.Fault?)
            && (k == |pdu| ==> buf == Buffered(next, end) && out == (if end == |next| then Pdu(next) else Silent))
  {
    var end := After(next, 0, mtu);
    if end == |next| {
      assert next[..end] == next;
    } else {
      PrefixIncomplete(next, end);
    }
  }

  /** The next packet of a PDU of which it has k bytes. */
  lemma ContinuationArrives(handle: Uint16, pdu: seq<Byte>, k: nat, mtu: nat)
    requires SelfDelimiting(pdu) && 0 < k < |pdu| && mtu > 0
    ensures var end := After(pdu, k, mtu);
            var (buf, out) := Recombine(handle, Buffered(pdu, k),
                                        Relay(AclPacket(CONTINUATION, 0, handle, pdu[k..end])));
            buf == Buffered(pdu, end) && out == (if end == |pdu| then Pdu(pdu) else Silent)
  {
    var end := After(pdu, k, mtu);
    assert pdu[..k] + pdu[k..end] == pdu[..end];
    if end == |pdu| {
      assert pdu[..end] == pdu;
    } else {
      PrefixIncomplete(pdu, end);
    }
  }

  lemma RelayCons(q: AclPacket, qs: seq<AclPacket>)
    ensures RelayAll([q] + qs) == [Relay(q)] + RelayAll(qs)
  {
  }

  lemma RunCons(handle: Uint16, buf: seq<Byte>, q: AclPacket, qs: seq<AclPacket>)
    ensures var (next, out) := Recombine(handle, buf, q);
            && Residue(handle, buf, [q] + qs) == Residue(handle, next, qs)
            && Pdus(handle, buf, [q] + qs) == (if out.Pdu? then [out.bytes] else []) + Pdus(handle, next, qs)
            && (Clean(handle, buf, [q] + qs) <==> !out.Fault? && Clean(handle, next, qs))
  {
  }

  /** The far end recombines the rest of the turns as it should. */
  ghost predicate Recombines(handle: Uint16, queues: seq<seq<AclPacket>>, todo: seq<seq<seq<Byte>>>, turns: seq<nat>,
                             pdu: seq<Byte>, k: nat)
    requires Schedule(queues, turns) && |todo| == |queues| && k <= |pdu|
  {
    var qs := RelayAll(Interleave(queues, turns));
    var buf := Buffered(pdu, k);
    && (Clean(handle, buf, qs) <==> Apart(queues, turns))
    && (Apart(queues, turns) ==>
          Residue(handle, buf, qs) == []
          && Pdus(handle, buf, qs) == (if k < |pdu| then [pdu] else []) + InOrder(queues, todo, turns))
  }

  lemma MidwayGoesOn(handle: Uint16, queues: seq<seq<AclPacket>>, todo: seq<seq<seq<Byte>>>, mtus: seq<nat>, w: nat,
                     pdu: seq<Byte>, k: nat)
    requires Midway(handle, queues, todo, mtus, w, pdu, k) && k < |pdu|
    ensures var end := After(pdu, k, mtus[w]);
            && queues[w] != [] && queues[w][0] == AclPacket(CONTINUATION, 0, handle, pdu[k..end])
            && Midway(handle, Advance(queues, w), todo, mtus, w, pdu, end)
    ensures forall v :: 0 <= v < |queues| && v != w ==> !Begun(queues[v])
  {
    NextOfTail(handle, pdu, k, todo[w], mtus[w]);
    forall v | 0 <= v < |queues| && v != w ensures !Begun(queues[v]) {
      NextOfWaiting(handle, queues[v], todo[v], mtus[v]);
    }
  }

  /** The writer that is in the middle of a PDU has its turn. */
  lemma {:induction false} GoesOn(handle: Uint16, queues: seq<seq<AclPacket>>, todo: seq<seq<seq<Byte>>>, mtu: nat,
                                  w: nat, pdu: seq<Byte>, k: nat, turns: seq<nat>)
    requires Schedule(queues, turns) && |todo| == |queues| && turns != [] && turns[0] == w
    requires mtu > 0 && SelfDelimiting(pdu) && 0 < k < |pdu|
    requires queues[w][0] == AclPacket(CONTINUATION, 0, handle, pdu[k..After(pdu, k, mtu)])
    requires forall v :: 0 <= v < |queues| && v != w ==> !Begun(queues[v])
    requires Recombines(handle, Advance(queues, w), todo, turns[1..], pdu, After(pdu, k, mtu))
    ensures Recombines(handle, queues, todo, turns, pdu, k)
  {
    var qs := Interleave(Advance(queues, w), turns[1..]);
    ContinuationArrives(handle, pdu, k, mtu);
    RelayCons(queues[w][0], qs);
    RunCons(handle, Buffered(pdu, k), Relay(queues[w][0]), RelayAll(qs));
  }

  lemma MidwayStarts(handle: Uint16, queues: seq<seq<AclPacket>>, todo: seq<seq<seq<Byte>>>, mtus: seq<nat>, w: nat,
                     pdu: seq<Byte>, k: nat, v: nat)
    requires Midway(handle, queues, todo, mtus, w, pdu, k) && v < |queues| && queues[v] != []
    requires k < |pdu| ==> v != w
    ensures todo[v] != [] && SelfDelimiting(todo[v][0]) && mtus[v] > 0
    ensures queues[v][0] == AclPacket(FIRST_FROM_HOST, 0, handle, todo[v][0][..After(todo[v][0], 0, mtus[v])])
    ensures var next := todo[v][0];
            if k < |pdu| then Begun(queues[w])
            else && Midway(handle, Advance(queues, v), Advance(todo, v), mtus, v, next, After(next, 0, mtus[v]))
                 && forall u :: 0 <= u < |queues| ==> !Begun(queues[u])
  {
    if k == |pdu| {
      TailOfWhole(handle, pdu, todo[w], mtus[w]);
      forall u | 0 <= u < |queues| ensures !Begun(queues[u]) {
        NextOfWaiting(handle, queues[u], todo[u], mtus[u]);
      }
    } else {
      NextOfTail(handle, pdu, k, todo[w], mtus[w]);
    }
    NextOfWaiting(handle, queues[v], todo[v], mtus[v]);
  }

  /** A writer begins a PDU while another one is in the middle of its own. */
  lemma CutsIn(handle: Uint16, queues: seq<seq<AclPacket>>, todo: seq<seq<seq<Byte>>>, w: nat, pdu: seq<Byte>, k: nat,
               next: seq<Byte>, mtu: nat, turns: seq<nat>)
    requires Schedule(queues, turns) && |todo| == |queues|
    requires turns != [] && turns[0] != w < |queues| && Begun(queues[w])
    requires mtu > 0 && SelfDelimiting(pdu) && SelfDelimiting(next) && 0 < k < |pdu|
    requires queues[turns[0]][0] == AclPacket(FIRST_FROM_HOST, 0, handle, next[..After(next, 0, mtu)])
    ensures Recombines(handle, queues, todo, turns, pdu, k)
  {
    var q, qs := queues[turns[0]][0], Interleave(Advance(queues, turns[0]), turns[1..]);
    StartArrives(handle, pdu, k, next, mtu);
    RelayCons(q, qs);
    RunCons(handle, Buffered(pdu, k), Relay(q), RelayAll(qs));
  }

  /** A writer begins a PDU while none is in the middle of one. */
  lemma {:induction false} Starts(handle: Uint16, queues: seq<seq<AclPacket>>, todo: seq<seq<seq<Byte>>>,
                                  pdu: seq<Byte>, mtu: nat, turns: seq<nat>)
    requires Schedule(queues, turns) && |todo| == |queues| && turns != []
    requires mtu > 0 && SelfDelimiting(pdu) && (forall u :: 0 <= u < |queues| ==> !Begun(queues[u]))
    requires var v := turns[0];
             && todo[v] != [] && SelfDelimiting(todo[v][0])
             && queues[v][0] == AclPacket(FIRST_FROM_HOST, 0, handle, todo[v][0][..After(todo[v][0], 0, mtu)])
             && Recombines(handle, Advance(queues, v), Advance(todo, v), turns[1..], todo[v][0],
                           After(todo[v][0], 0, mtu))
    ensures Recombines(handle, queues, todo, turns, pdu, |pdu|)
  {
    var v := turns[0];
    var q, qs := queues[v][0], Interleave(Advance(queues, v), turns[1..]);
    var next, rest := todo[v][0], InOrder(Advance(queues, v), Advance(todo, v), turns[1..]);
    assert Apart(queues, turns) <==> Apart(Advance(queues, v), turns[1..]);
    assert Interleave(queues, turns) == [q] + qs && InOrder(queues, todo, turns) == [next] + rest;
    StartThenRest(handle, next, mtu, q, qs, rest, Apart(queues, turns));
    assert [] + ([next] + rest) == [next] + rest;
  }

  /** The first packet of a PDU, and what follows. */
  lemma StartThenRest(handle: Uint16, next: seq<Byte>, mtu: nat, q: AclPacket, qs: seq<AclPacket>,
                      rest: seq<seq<Byte>>, apart: bool)
    requires mtu > 0 && SelfDelimiting(next)
    requires q == AclPacket(FIRST_FROM_HOST, 0, handle, next[..After(next, 0, mtu)])
    requires var buf := Buffered(next, After(next, 0, mtu));
             && (Clean(handle, buf, RelayAll(qs)) <==> apart)
             && (apart ==>
                   && Residue(handle, buf, RelayAll(qs)) == []
                   && Pdus(handle, buf, RelayAll(qs)) == (if After(next, 0, mtu) < |next| then [next] else []) + rest)
    ensures Clean(handle, [], RelayAll([q] + qs)) <==> apart
    ensures apart ==>
              Residue(handle, [], RelayAll([q] + qs)) == [] && Pdus(handle, [], RelayAll([q] + qs)) == [next] + rest
  {
    StartArrives(handle, next, |next|, next, mtu);
    RelayCons(q, qs);
    RunCons(handle, [], Relay(q), RelayAll(qs));
    assert [next] + ([] + rest) == [next] + rest && [] + ([next] + rest) == [next] + rest;
  }

  lemma {:induction false} TurnsRecombine(handle: Uint16, queues: seq<seq<AclPacket>>, todo: seq<seq<seq<Byte>>>,
                                          mtus: seq<nat>, w: nat, pdu: seq<Byte>, k: nat, turns: seq<nat>)
    requires Midway(handle, queues, todo, mtus, w, pdu, k) && Schedule(queues, turns)
    ensures Recombines(handle, queues, todo, turns, pdu, k)
    decreases |turns|
  {
    if turns == [] {
      if k < |pdu| {
        NextOfTail(handle, pdu, k, todo[w], mtus[w]);
      }
    } else if k < |pdu| && turns[0] == w {
      MidwayGoesOn(handle, queues, todo, mtus, w, pdu, k);
      TurnsRecombine(handle, Advance(queues, w), todo, mtus, w, pdu, After(pdu, k, mtus[w]), turns[1..]);
      GoesOn(handle, queues, todo, mtus[w], w, pdu, k, turns);
    } else {
      var v := turns[0];
      MidwayStarts(handle, queues, todo, mtus, w, pdu, k, v);
      var next := todo[v][0];
      if k < |pdu| {
        CutsIn(handle, queues, todo, w, pdu, k, next, mtus[v], turns);
      } else {
        var end := After(next, 0, mtus[v]);
        TurnsRecombine(handle, Advance(queues, v), Advance(todo, v), mtus, v, next, end, turns[1..]);
        Starts(handle, queues, todo, pdu, mtus[v], turns);
      }
    }
  }

  /** Any number of writers on one connection, in any order of turns: every packet is accepted by the far end if and
      only if none is written while another writer is in the middle of a PDU. And then the PDUs come out whole, in the
      order in which they were begun, and no byte is left over. */
  lemma WritersRecombine(handle: Uint16, queues: seq<seq<AclPacket>>, todo: seq<seq<seq<Byte>>>, mtus: seq<nat>,
                         turns: seq<nat>)
    requires Ready(handle, queues, todo, mtus) && Schedule(queues, turns)
    ensures var qs := RelayAll(Interleave(queues, turns));
            && (Clean(handle, [], qs) <==> Apart(queues, turns))
            && (Apart(queues, turns) ==>
                  Residue(handle, [], qs) == [] && Pdus(handle, [], qs) == InOrder(queues, todo, turns))
  {
    if turns != [] {
      var empty: seq<Byte> := [0, 0, 0, 0];
      assert empty[4..] == [];
      TurnsRecombine(handle, queues, todo, mtus, turns[0], empty, 4, turns);
    }
  }

  // ------------------------------------------------------------------ each writer's own order

  /** The PDUs a queue begins. */
  function Begins(queue: seq<AclPacket>): nat {
    if queue == [] then 0 else (if Begun(queue) then 0 else 1) + Begins(queue[1..])
  }

  lemma {:induction false} BeginsAppend(a: seq<AclPacket>, b: seq<AclPacket>)
    ensures Begins(a + b) == Begins(a) + Begins(b)
  {
    if a == [] {
      assert a + b == b;
    } else {
      BeginsAppend(a[1..], b);
      assert (a + b)[0] == a[0] && (a + b)[1..] == a[1..] + b;
    }
  }

  lemma {:induction false} BeginsLabel(handle: Uint16, pieces: seq<seq<Byte>>, start: bool)
    ensures Begins(Label(handle, pieces, start)) == if start && pieces != [] then 1 else 0
    decreases |pieces|
  {
    if pieces != [] {
      BeginsLabel(handle, pieces[1..], false);
      assert Label(handle, pieces, start)[1..] == Label(handle, pieces[1..], false);
    }
  }

  lemma {:induction false} BeginsWaiting(handle: Uint16, queue: seq<AclPacket>, pdus: seq<seq<Byte>>, mtu: nat)
    requires Waiting(handle, queue, pdus, mtu)
    ensures Begins(queue) == |pdus|
    decreases |pdus|
  {
    if pdus != [] {
      BeginsLabel(handle, Chunks(pdus[0], mtu), true);
      BeginsWaiting(handle, AllFragments(handle, pdus[1..], mtu), pdus[1..], mtu);
      BeginsAppend(Fragments(handle, pdus[0], mtu), AllFragments(handle, pdus[1..], mtu));
    }
  }

  // ------------------------------------------------------------------ when every order is safe

  /** A writer with a PDU that takes several packets has no company. */
  ghost predicate Exclusive(queues: seq<seq<AclPacket>>) {
    forall v, w :: 0 <= v < |queues| && 0 <= w < |queues| && v != w && Long(queues[v]) ==> queues[w] == []
  }

  predicate Long(queue: seq<AclPacket>) {
    exists q :: q in queue && q.boundary == CONTINUATION
  }

  /** One of the PDUs does not fit the piece size. */
  predicate Oversize(pdus: seq<seq<Byte>>, mtu: nat) {
    exists i :: 0 <= i < |pdus| && |pdus[i]| > mtu
  }

  lemma BegunIsLong(queue: seq<AclPacket>)
    ensures Begun(queue) ==> Long(queue)
  {
  }

  lemma {:induction false} ExclusiveIsApart(queues: seq<seq<AclPacket>>, turns: seq<nat>)
    requires Schedule(queues, turns) && Exclusive(queues)
    ensures Apart(queues, turns)
    decreases |turns|
  {
    if turns != [] {
      var w := turns[0];
      var later := Advance(queues, w);
      forall v | 0 <= v < |queues| && v != w ensures !Begun(queues[v]) {
        BegunIsLong(queues[v]);
      }
      forall v | 0 <= v < |queues| && Long(later[v]) ensures Long(queues[v]) {
        var q: AclPacket :| q in later[v] && q.boundary == CONTINUATION;
        assert q in queues[v];
      }
      ExclusiveIsApart(later, turns[1..]);
    }
  }

  /** Any queues can be written to the end. */
  lemma {:induction false} SomeSchedule(queues: seq<seq<AclPacket>>, v: nat) returns (turns: seq<nat>)
    requires v <= |queues| && forall u :: 0 <= u < v ==> queues[u] == []
    ensures Schedule(queues, turns)
    decreases |queues| - v, if v < |queues| then |queues[v]| else 0
  {
    if v == |queues| {
      turns := [];
    } else if queues[v] == [] {
      turns := SomeSchedule(queues, v + 1);
    } else {
      var more := SomeSchedule(Advance(queues, v), v);
      turns := [v] + more;
      assert turns[1..] == more;
    }
  }

  /** A writer whose PDU takes several packets, and another one with anything to write, can get into each other's
      way. */
  lemma {:induction false} Collision(queues: seq<seq<AclPacket>>, v: nat, w: nat) returns (turns: seq<nat>)
    requires v < |queues| && w < |queues| && v != w && Long(queues[v]) && queues[w] != []
    ensures Schedule(queues, turns) && !Apart(queues, turns)
    decreases |queues[v]|
  {
    if Begun(queues[v]) {
      var more := SomeSchedule(Advance(queues, w), 0);
      turns := [w] + more;
      assert turns[1..] == more;
    } else {
      var q: AclPacket :| q in queues[v] && q.boundary == CONTINUATION;
      assert q in queues[v][1..];
      var more := Collision(Advance(queues, v), v, w);
      turns := [v] + more;
      assert turns[1..] == more;
    }
  }

  /** A queue is long exactly if one of its PDUs does not fit the writer's piece size. */
  lemma {:induction false} LongWaiting(handle: Uint16, queue: seq<AclPacket>, pdus: seq<seq<Byte>>, mtu: nat)
    requires Waiting(handle, queue, pdus, mtu)
    ensures Long(queue) <==> Oversize(pdus, mtu)
    decreases |pdus|
  {
    if pdus != [] {
      var first, rest := Fragments(handle, pdus[0], mtu), AllFragments(handle, pdus[1..], mtu);
      LongWaiting(handle, rest, pdus[1..], mtu);
      LongFragments(handle, pdus[0], mtu);
      assert queue == first + rest;
      assert Long(queue) <==> Long(first) || Long(rest) by {
        assert forall q: AclPacket :: q in queue <==> q in first || q in rest;
      }
      assert forall i :: 0 < i < |pdus| ==> pdus[i] == pdus[1..][i - 1];
      if i :| 0 <= i < |pdus[1..]| && |pdus[1..][i]| > mtu {
        assert |pdus[i + 1]| > mtu;
      }
    }
  }

  lemma LongFragments(handle: Uint16, pdu: seq<Byte>, mtu: nat)
    requires mtu > 0 && SelfDelimiting(pdu)
    ensures Long(Fragments(handle, pdu, mtu)) <==> |pdu| > mtu
  {
    var qs := Fragments(handle, pdu, mtu);
    if |pdu| > mtu {
      NextOfTail(handle, pdu, mtu, [], mtu);
      var more := Chunks(pdu[mtu..], mtu);
      LabelCons(handle, pdu[..mtu], more, true);
      assert qs == [qs[0]] + Label(handle, more, false);
      assert Label(handle, more, false) + [] == Label(handle, more, false);
      assert Label(handle, more, false)[0] in qs;
    } else {
      assert |qs| == 1 && qs[0].boundary == FIRST_FROM_HOST;
    }
  }

  /** Every order of turns is safe if and only if a writer with a PDU larger than its piece size is the only one with
      anything to write; so always if every PDU fits. */
  lemma EveryOrderIsSafe(handle: Uint16, queues: seq<seq<AclPacket>>, todo: seq<seq<seq<Byte>>>, mtus: seq<nat>)
    requires Ready(handle, queues, todo, mtus)
    ensures (forall turns :: Schedule(queues, turns) ==> Clean(handle, [], RelayAll(Interleave(queues, turns))))
            <==> (forall v, w ::
                    0 <= v < |todo| && 0 <= w < |todo| && v != w && Oversize(todo[v], mtus[v]) ==> todo[w] == [])
  {
    forall v | 0 <= v < |todo|
      ensures queues[v] == [] <==> todo[v] == []
      ensures Long(queues[v]) <==> Oversize(todo[v], mtus[v])
    {
      NextOfWaiting(handle, queues[v], todo[v], mtus[v]);
      LongWaiting(handle, queues[v], todo[v], mtus[v]);
    }
    if Exclusive(queues) {
      forall turns | Schedule(queues, turns) ensures Clean(handle, [], RelayAll(Interleave(queues, turns))) {
        ExclusiveIsApart(queues, turns);
        WritersRecombine(handle, queues, todo, mtus, turns);
      }
    } else {
      var v, w :| 0 <= v < |queues| && 0 <= w < |queues| && v != w && Long(queues[v]) && queues[w] != [];
      var turns := Collision(queues, v, w);
      WritersRecombine(handle, queues, todo, mtus, turns);
    }
  }
}
