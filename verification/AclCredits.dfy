/** The controller's buffer credits, shared by all connections, against the packets really outstanding there.
    Vol 4 Part E section 4.1.1. */
module AclCredits {
  import opened Bytes
  import opened Sums

  /** ACLPacketsRemaining and ACLPacketsPending. */
  datatype Ledger = Ledger(remaining: Uint16, pending: map<Uint16, Uint16>)

  datatype Event =
    | Sent(handle: Uint16)
    | Completed(counts: seq<(Uint16, Uint16)>)
    | Disconnected(handle: Uint16)

  function Total(counts: seq<(Uint16, Uint16)>): nat {
    if counts == [] then 0 else counts[0].1 + Total(counts[1..])
  }

  /** What the adapter does to its ledger. Completions return their packets without touching what is pending;
      a disconnection returns everything pending on the link. A send waits while nothing remains. */
  function Post(l: Ledger, e: Event): Ledger {
    match e
    case Sent(h) =>
      if l.remaining == 0 then l
      else Ledger(l.remaining - 1, l.pending[h := Wrap16(At(l.pending, h, 0) as int + 1)])
    case Completed(counts) => l.(remaining := Wrap16(l.remaining + Total(counts)))
    case Disconnected(h) => Ledger(Wrap16(l.remaining + At(l.pending, h, 0)), l.pending - {h})
  }

  /** The ledger beside the truth: packets in the controller and packets it has completed, per live link, the completed
      packets of links since dropped, and how often a count of returned packets has passed sixteen bits. */
  datatype World = World(
    ledger: Ledger, outstanding: map<Uint16, nat>, done: map<Uint16, nat>, surplus: nat, wraps: nat)

  /** The multiples of 2^16 that Wrap16 takes off. */
  function Wraps(n: nat): nat {
    n / 0x1_0000
  }

  /** A conforming controller completes only packets it holds. */
  predicate Completable(outstanding: map<Uint16, nat>, counts: seq<(Uint16, Uint16)>)
    decreases |counts|
  {
    counts == [] ||
    (counts[0].1 <= At(outstanding, counts[0].0, 0)
     && Completable(outstanding[counts[0].0 := At(outstanding, counts[0].0, 0) - counts[0].1], counts[1..]))
  }

  function TakeAway(outstanding: map<Uint16, nat>, counts: seq<(Uint16, Uint16)>): map<Uint16, nat>
    requires Completable(outstanding, counts)
    decreases |counts|
  {
    if counts == [] then outstanding
    else TakeAway(outstanding[counts[0].0 := At(outstanding, counts[0].0, 0) - counts[0].1], counts[1..])
  }

  function AddUp(done: map<Uint16, nat>, counts: seq<(Uint16, Uint16)>): map<Uint16, nat>
    decreases |counts|
  {
    if counts == [] then done
    else AddUp(done[counts[0].0 := At(done, counts[0].0, 0) + counts[0].1], counts[1..])
  }

  predicate Legal(w: World, e: Event) {
    match e
    case Sent(_) => w.ledger.remaining > 0
    case Completed(counts) => Completable(w.outstanding, counts)
    case Disconnected(_) => true
  }

  function Next(w: World, e: Event): World
    requires Legal(w, e)
  {
    var ledger := Post(w.ledger, e);
    match e
    case Sent(h) => w.(ledger := ledger, outstanding := w.outstanding[h := At(w.outstanding, h, 0) + 1])
    case Completed(counts) =>
      w.(ledger := ledger, outstanding := TakeAway(w.outstanding, counts), done := AddUp(w.done, counts),
         wraps := w.wraps + Wraps(w.ledger.remaining + Total(counts)))
    case Disconnected(h) =>
      var sent := At(w.outstanding, h, 0) + At(w.done, h, 0);
      World(ledger, w.outstanding - {h}, w.done - {h}, w.surplus + At(w.done, h, 0),
            w.wraps + Wraps(sent) + Wraps(w.ledger.remaining + Wrap16(sent)))
  }

  predicate LegalRun(w: World, es: seq<Event>)
    decreases |es|
  {
    es == [] || (Legal(w, es[0]) && LegalRun(Next(w, es[0]), es[1..]))
  }

  function Run(w: World, es: seq<Event>): World
    requires LegalRun(w, es)
    decreases |es|
  {
    if es == [] then w else Run(Next(w, es[0]), es[1..])
  }

  function PostAll(l: Ledger, es: seq<Event>): Ledger
    decreases |es|
  {
    if es == [] then l else PostAll(Post(l, es[0]), es[1..])
  }

  /** After LEReadBufferSize. */
  function Start(total: Uint16): World {
    World(Ledger(total, map[]), map[], map[], 0, 0)
  }

  lemma {:induction false} SumTakeAway(outstanding: map<Uint16, nat>, counts: seq<(Uint16, Uint16)>)
    requires Completable(outstanding, counts)
    ensures Sum(TakeAway(outstanding, counts)) + Total(counts) == Sum(outstanding)
    decreases |counts|
  {
    if counts != [] {
      var (h, n) := counts[0];
      SumUpdate(outstanding, h, At(outstanding, h, 0) - n);
      SumTakeAway(outstanding[h := At(outstanding, h, 0) - n], counts[1..]);
    }
  }

  /** Completion moves packets of a link from outstanding to done. */
  lemma {:induction false} MovedPerLink(outstanding: map<Uint16, nat>, done: map<Uint16, nat>,
                                        counts: seq<(Uint16, Uint16)>, h: Uint16)
    requires Completable(outstanding, counts)
    ensures At(TakeAway(outstanding, counts), h, 0) + At(AddUp(done, counts), h, 0)
         == At(outstanding, h, 0) + At(done, h, 0)
    decreases |counts|
  {
    if counts != [] {
      var (g, n) := counts[0];
      MovedPerLink(outstanding[g := At(outstanding, g, 0) - n], done[g := At(done, g, 0) + n], counts[1..], h);
    }
  }

  // ------------------------------------------------------------------ the accounting theorem

  /** What is pending on a link is, in sixteen bits, what was sent on it while it lives. */
  predicate Tallied(w: World, h: Uint16) {
    At(w.ledger.pending, h, 0) == Wrap16(At(w.outstanding, h, 0) + At(w.done, h, 0))
  }

  /** What the host may still send and what the controller holds are the controller's total plus the surplus, less
      2^16 for every time a count has wrapped; and pending is, in sixteen bits, what was sent on the live link. */
  ghost predicate Balanced(w: World, total: Uint16) {
    && w.ledger.remaining + Sum(w.outstanding) + 0x1_0000 * w.wraps == total + w.surplus
    && (forall h: Uint16 :: Tallied(w, h))
  }

  lemma WrapParts(n: nat)
    ensures n == Wrap16(n) + 0x1_0000 * Wraps(n)
  {
  }

  lemma WrapSucc(a: nat)
    ensures Wrap16(Wrap16(a) as int + 1) == Wrap16(a + 1)
  {
  }

  lemma PendingElsewhere(w: World, v: World, h: Uint16)
    requires forall g: Uint16 :: Tallied(w, g)
    requires Tallied(v, h)
    requires forall g: Uint16 :: g != h ==>
               At(v.ledger.pending, g, 0) == At(w.ledger.pending, g, 0)
               && At(v.outstanding, g, 0) == At(w.outstanding, g, 0) && At(v.done, g, 0) == At(w.done, g, 0)
    ensures forall g: Uint16 :: Tallied(v, g)
  {
    forall g: Uint16 ensures Tallied(v, g) {
      assert Tallied(w, g);
    }
  }

  lemma SendBalanced(w: World, total: Uint16, h: Uint16)
    requires Balanced(w, total) && Legal(w, Sent(h))
    ensures Balanced(Next(w, Sent(h)), total)
  {
    var v := Next(w, Sent(h));
    assert Tallied(w, h);
    SentParts(w, h);
    PendingElsewhere(w, v, h);
  }

  /** A send takes one from what remains and adds one to what is outstanding and pending. */
  lemma SentParts(w: World, h: Uint16)
    requires Tallied(w, h) && Legal(w, Sent(h))
    ensures var v := Next(w, Sent(h));
            Tallied(v, h) && v.ledger.remaining + Sum(v.outstanding) == w.ledger.remaining + Sum(w.outstanding)
  {
    SumUpdate(w.outstanding, h, At(w.outstanding, h, 0) + 1);
    WrapSucc(At(w.outstanding, h, 0) + At(w.done, h, 0));
  }

  lemma CompletionBalanced(w: World, total: Uint16, counts: seq<(Uint16, Uint16)>)
    requires Balanced(w, total) && Legal(w, Completed(counts))
    ensures Balanced(Next(w, Completed(counts)), total)
  {
    var v := Next(w, Completed(counts));
    SumTakeAway(w.outstanding, counts);
    WrapParts(w.ledger.remaining + Total(counts));
    forall h: Uint16 ensures Tallied(v, h) {
      assert Tallied(w, h);
      MovedPerLink(w.outstanding, w.done, counts, h);
    }
  }

  lemma DisconnectionBalanced(w: World, total: Uint16, h: Uint16)
    requires Balanced(w, total)
    ensures Balanced(Next(w, Disconnected(h)), total)
  {
    var v := Next(w, Disconnected(h));
    assert Tallied(w, h);
    RefundParts(w, h);
    assert Tallied(v, h);
    PendingElsewhere(w, v, h);
  }

  /** Refunding what is pending on a link returns what is outstanding there and what had been completed. */
  lemma RefundParts(w: World, h: Uint16)
    requires Tallied(w, h)
    ensures var v := Next(w, Disconnected(h));
            v.ledger.remaining + Sum(v.outstanding) + 0x1_0000 * v.wraps - v.surplus
            == w.ledger.remaining + Sum(w.outstanding) + 0x1_0000 * w.wraps - w.surplus
  {
    SumUpdate(w.outstanding, h, 0);
    RefundWraps(w.ledger.remaining, At(w.outstanding, h, 0) + At(w.done, h, 0));
  }

  lemma RefundWraps(remaining: Uint16, sent: nat)
    ensures Wrap16(remaining + Wrap16(sent)) + 0x1_0000 * (Wraps(sent) + Wraps(remaining + Wrap16(sent)))
         == remaining + sent
  {
    WrapParts(sent);
    WrapParts(remaining + Wrap16(sent));
  }

  lemma {:induction false} AlwaysBalanced(w: World, total: Uint16, es: seq<Event>)
    requires Balanced(w, total) && LegalRun(w, es)
    ensures Balanced(Run(w, es), total)
    ensures Run(w, es).ledger == PostAll(w.ledger, es)
    decreases |es|
  {
    if es != [] {
      match es[0] {
        case Sent(h) => SendBalanced(w, total, h);
        case Completed(counts) => CompletionBalanced(w, total, counts);
        case Disconnected(h) => DisconnectionBalanced(w, total, h);
      }
      AlwaysBalanced(Next(w, es[0]), total, es[1..]);
    }
  }

  /** The packets completed on each link at the moment it was dropped, over a run. */
  function Stranded(w: World, es: seq<Event>): nat
    requires LegalRun(w, es)
    decreases |es|
  {
    if es == [] then 0
    else (if es[0].Disconnected? then At(w.done, es[0].handle, 0) else 0) + Stranded(Next(w, es[0]), es[1..])
  }

  lemma {:induction false} SurplusIsStranded(w: World, es: seq<Event>)
    requires LegalRun(w, es)
    ensures Run(w, es).surplus == w.surplus + Stranded(w, es)
    decreases |es|
  {
    if es != [] {
      SurplusIsStranded(Next(w, es[0]), es[1..]);
    }
  }

  /** The accounting over every run of sends, completions and disconnections on any number of links: the credits and
      the packets outstanding add up to the controller's total plus the packets that had completed on each dropped
      link, less 2^16 for every wrap. So they add up to the total exactly if the stranded packets are 2^16 for each
      wrap, and in particular as long as no link is dropped after a completion. */
  lemma CreditAccounting(total: Uint16, es: seq<Event>)
    requires LegalRun(Start(total), es)
    ensures var w := Run(Start(total), es); var stranded := Stranded(Start(total), es);
            && w.ledger == PostAll(Ledger(total, map[]), es)
            && w.ledger.remaining + Sum(w.outstanding) + 0x1_0000 * w.wraps == total + stranded
            && (w.ledger.remaining + Sum(w.outstanding) == total as nat <==> stranded == 0x1_0000 * w.wraps)
            && (stranded == 0 ==> w.ledger.remaining + Sum(w.outstanding) == total as nat)
  {
    AlwaysBalanced(Start(total), total, es);
    SurplusIsStranded(Start(total), es);
  }

  /** Without disconnections the sum never moves. */
  lemma {:induction false} NothingStranded(w: World, es: seq<Event>)
    requires LegalRun(w, es) && forall i :: 0 <= i < |es| ==> !es[i].Disconnected?
    ensures Stranded(w, es) == 0
    decreases |es|
  {
    if es != [] {
      assert !es[0].Disconnected?;
      NothingStranded(Next(w, es[0]), es[1..]);
    }
  }

  lemma ConservedWithoutDisconnections(total: Uint16, es: seq<Event>)
    requires LegalRun(Start(total), es) && forall i :: 0 <= i < |es| ==> !es[i].Disconnected?
    ensures var w := Run(Start(total), es); w.ledger.remaining + Sum(w.outstanding) == total as nat
  {
    NothingStranded(Start(total), es);
    CreditAccounting(total, es);
  }

  lemma OneCompleted(outstanding: map<Uint16, nat>, h: Uint16, n: Uint16)
    requires n <= At(outstanding, h, 0)
    ensures Completable(outstanding, [(h, n)]) && Total([(h, n)]) == n
    ensures TakeAway(outstanding, [(h, n)]) == outstanding[h := At(outstanding, h, 0) - n]
  {
    assert [(h, n)][1..] == [];
  }

  lemma OneDone(done: map<Uint16, nat>, h: Uint16, n: Uint16)
    ensures AddUp(done, [(h, n)]) == done[h := At(done, h, 0) + n]
  {
    assert [(h, n)][1..] == [];
  }

  lemma RunCons(w: World, es: seq<Event>, v: World)
    requires es != [] && Legal(w, es[0]) && v == Next(w, es[0])
    ensures LegalRun(w, es) <==> LegalRun(v, es[1..])
    ensures LegalRun(w, es) ==> Run(w, es) == Run(v, es[1..])
  {
  }

  // ------------------------------------------------------------------ progress

  lemma {:induction false} SumPositive(m: map<Uint16, nat>) returns (h: Uint16)
    requires Sum(m) > 0
    ensures At(m, h, 0) > 0
    decreases |m|
  {
    var g :| g in m && Sum(m) == m[g] + Sum(m - {g});
    if m[g] > 0 {
      h := g;
    } else {
      h := SumPositive(m - {g});
    }
  }

  /** Some packet can be sent, or the controller has one to complete. */
  ghost predicate Moves(w: World) {
    exists h: Uint16 :: Legal(w, Sent(h)) || Legal(w, Completed([(h, 1)]))
  }

  lemma MovesExactly(w: World)
    ensures Moves(w) <==> w.ledger.remaining + Sum(w.outstanding) > 0
  {
    if w.ledger.remaining > 0 {
      assert Legal(w, Sent(0));
    } else if Sum(w.outstanding) > 0 {
      var h := SumPositive(w.outstanding);
      OneCompleted(w.outstanding, h, 1);
      assert Legal(w, Completed([(h, 1)]));
    } else {
      forall h: Uint16 ensures !Legal(w, Completed([(h, 1)])) {
        SumUpdate(w.outstanding, h, 0);
      }
    }
  }

  lemma MultipleWraps(n: nat, k: nat)
    requires n == 0x1_0000 * k
    ensures Wrap16(n) == 0
  {
  }

  /** Progress, exactly: on any run the buffers can move unless the total and the stranded packets are 2^16 for each
      wrap; so they can wherever those are not a multiple of 2^16 at all. */
  lemma BuffersKeepMoving(total: Uint16, es: seq<Event>)
    requires LegalRun(Start(total), es)
    ensures var w := Run(Start(total), es); var stranded := Stranded(Start(total), es);
            && (Moves(w) <==> total + stranded != 0x1_0000 * w.wraps)
            && (Wrap16(total + stranded) != 0 ==> Moves(w))
  {
    CreditAccounting(total, es);
    var w := Run(Start(total), es);
    MovesExactly(w);
    if total + Stranded(Start(total), es) == 0x1_0000 * w.wraps {
      MultipleWraps(total + Stranded(Start(total), es), w.wraps);
    }
  }

  /** So without disconnections, and with any buffer at all, they always do. */
  lemma BuffersAlwaysMove(total: Uint16, es: seq<Event>)
    requires total > 0 && LegalRun(Start(total), es) && forall i :: 0 <= i < |es| ==> !es[i].Disconnected?
    ensures Moves(Run(Start(total), es))
  {
    NothingStranded(Start(total), es);
    BuffersKeepMoving(total, es);
  }

  /** Where nothing is returned any more, only what remains can be sent. */
  lemma {:induction false} SendsAreBounded(w: World, es: seq<Event>)
    requires LegalRun(w, es) && forall i :: 0 <= i < |es| ==> es[i].Sent?
    ensures |es| <= w.ledger.remaining
    decreases |es|
  {
    if es != [] {
      assert es[0].Sent?;
      SendsAreBounded(Next(w, es[0]), es[1..]);
    }
  }

  /** Nothing remains, nothing is outstanding and nothing is pending. */
  ghost predicate Dead(w: World) {
    w.ledger.remaining == 0 && Sum(w.outstanding) == 0 && forall h: Uint16 :: At(w.ledger.pending, h, 0) == 0
  }

  lemma DeadStep(w: World, e: Event)
    requires Dead(w) && Legal(w, e)
    ensures Dead(Next(w, e)) && !e.Sent?
  {
    var v := Next(w, e);
    match e {
      case Completed(counts) =>
        SumTakeAway(w.outstanding, counts);
        assert v.ledger.pending == w.ledger.pending;
      case Disconnected(h) =>
        SumUpdate(w.outstanding, h, 0);
        forall g: Uint16 ensures At(v.ledger.pending, g, 0) == 0 {
          assert At(w.ledger.pending, g, 0) == 0;
        }
    }
  }

  predicate SendsNothing(es: seq<Event>) {
    forall i :: 0 <= i < |es| ==> !es[i].Sent?
  }

  /** Then no packet is ever sent again. */
  lemma {:induction false} DeadForEver(w: World, es: seq<Event>)
    requires Dead(w) && LegalRun(w, es)
    ensures Dead(Run(w, es)) && SendsNothing(es)
    decreases |es|
  {
    if es != [] {
      DeadStep(w, es[0]);
      DeadForEver(Next(w, es[0]), es[1..]);
    }
  }

  /** A world that is not dead revives: at once, after a completion, or after a link that has something pending is
      dropped. */
  lemma Revives(w: World) returns (es: seq<Event>)
    requires !Dead(w)
    ensures LegalRun(w, es) && !SendsNothing(es)
  {
    var send: Event := Sent(0);
    if w.ledger.remaining > 0 {
      es := [send];
    } else {
      var first: Event;
      if Sum(w.outstanding) > 0 {
        var h := SumPositive(w.outstanding);
        OneCompleted(w.outstanding, h, 1);
        first := Completed([(h, 1)]);
      } else {
        var h: Uint16 :| At(w.ledger.pending, h, 0) != 0;
        first := Disconnected(h);
      }
      var v := Next(w, first);
      assert Legal(v, send);
      es := [first, send];
      assert es[1..] == [send];
      RunCons(w, es, v);
    }
    assert es[|es| - 1] == send;
  }

  /** The worlds in which no packet can ever be sent again are exactly the dead ones. */
  lemma StalledExactly(w: World)
    ensures (forall more: seq<Event> :: LegalRun(w, more) ==> SendsNothing(more)) <==> Dead(w)
  {
    if Dead(w) {
      forall more: seq<Event> | LegalRun(w, more) ensures SendsNothing(more) {
        DeadForEver(w, more);
      }
    } else {
      var es := Revives(w);
    }
  }

  lemma {:induction false} RunAppend(w: World, a: seq<Event>, b: seq<Event>)
    requires LegalRun(w, a)
    ensures LegalRun(w, a + b) <==> LegalRun(Run(w, a), b)
    ensures LegalRun(w, a + b) ==> Run(w, a + b) == Run(Run(w, a), b)
    decreases |a|
  {
    if a == [] {
      assert a + b == b;
    } else {
      RunAppend(Next(w, a[0]), a[1..], b);
      assert (a + b)[0] == a[0] && (a + b)[1..] == a[1..] + b;
    }
  }

  function SendsOn(h: Uint16, n: nat): (es: seq<Event>)
    ensures |es| == n
  {
    if n == 0 then [] else [Sent(h)] + SendsOn(h, n - 1)
  }

  /** A link on which `out` packets are outstanding and nothing else has happened. */
  predicate Only(w: World, h: Uint16, remaining: Uint16, out: Uint16) {
    && w.ledger.remaining == remaining && w.ledger.pending == (if out == 0 then map[] else map[h := out])
    && w.outstanding == (if out == 0 then map[] else map[h := out as nat]) && w.done == map[]
  }

  lemma {:induction false} SendMany(w: World, h: Uint16, remaining: Uint16, out: Uint16, n: nat)
    requires Only(w, h, remaining, out) && n <= remaining && out + n <= 0xFFFF
    ensures LegalRun(w, SendsOn(h, n)) && Only(Run(w, SendsOn(h, n)), h, remaining - n, out + n)
    decreases n
  {
    if n > 0 {
      SendMany(Next(w, Sent(h)), h, remaining - 1, out + 1, n - 1);
      assert SendsOn(h, n)[1..] == SendsOn(h, n - 1);
    }
  }

  /** Use every buffer on one link, have every packet completed, drop the link. */
  function Round(h: Uint16, n: Uint16): seq<Event> {
    SendsOn(h, n) + ([Completed([(h, n)])] + [Disconnected(h)])
  }

  /** It doubles the credits, in sixteen bits. */
  lemma RoundDoubles(w: World, h: Uint16, n: Uint16)
    requires Only(w, h, n, 0) && n > 0
    ensures LegalRun(w, Round(h, n)) && Only(Run(w, Round(h, n)), h, Wrap16(n + n), 0)
  {
    SendMany(w, h, n, 0, n);
    var full := Run(w, SendsOn(h, n));
    OneCompleted(full.outstanding, h, n);
    OneDone(full.done, h, n);
    var idle := Next(full, Completed([(h, n)]));
    var dropped := Next(idle, Disconnected(h));
    assert idle.ledger.remaining == n;
    assert At(idle.ledger.pending, h, 0) == n;
    assert dropped.outstanding == map[] && dropped.ledger.pending == map[] && dropped.done == map[];
    var last := [Completed([(h, n)])] + [Disconnected(h)];
    assert last[1..] == [Disconnected(h)] && last[1..][1..] == [];
    RunCons(idle, last[1..], dropped);
    RunCons(full, last, idle);
    RunAppend(w, SendsOn(h, n), last);
  }

  /** The smallest run that goes wrong: one buffer, one packet sent and completed, the link dropped; the host then
      has two credits for one buffer and can put two packets into it. */
  lemma DroppedLinkOvercommits(h: Uint16, g: Uint16)
    requires h != g
    ensures var es := [Sent(h), Completed([(h, 1)]), Disconnected(h), Sent(g), Sent(g)];
            LegalRun(Start(1), es) && Sum(Run(Start(1), es).outstanding) == 2
  {
    RoundDoubles(Start(1), h, 1);
    var w := Run(Start(1), Round(h, 1));
    SendMany(w, g, 2, 0, 2);
    RunAppend(Start(1), Round(h, 1), SendsOn(g, 2));
    SumUpdate(map[], g, 2);
    assert SendsOn(h, 1) == [Sent(h)] && SendsOn(g, 2) == [Sent(g), Sent(g)];
    assert [Sent(h), Completed([(h, 1)]), Disconnected(h), Sent(g), Sent(g)] == Round(h, 1) + SendsOn(g, 2);
  }

  /** The j-th round starts with total * 2^j credits, less the wraps. */
  lemma {:induction false} Doubling(w: World, h: Uint16, total: Uint16, n: Uint16, j: nat, q: int)
    returns (es: seq<Event>)
    requires Only(w, h, n, 0) && j <= 16 && n == total * Pow2(j) - 0x1_0000 * q
    ensures LegalRun(w, es) && Only(Run(w, es), h, 0, 0)
    decreases 16 - j
  {
    Pow2Values();
    if n == 0 {
      es := [];
    } else {
      assert j == 16 ==> n == 0x1_0000 * (total - q);
      RoundDoubles(w, h, n);
      DoubledPower(total, n, j, q);
      var more := Doubling(Run(w, Round(h, n)), h, total, Wrap16(n + n), j + 1, 2 * q + Wraps(n + n));
      es := Round(h, n) + more;
      RunAppend(w, Round(h, n), more);
    }
  }

  lemma DoubledPower(total: Uint16, n: Uint16, j: nat, q: int)
    requires n == total * Pow2(j) - 0x1_0000 * q
    ensures Wrap16(n + n) == total * Pow2(j + 1) - 0x1_0000 * (2 * q + Wraps(n + n))
  {
    WrapParts(n + n);
    assert total * (2 * Pow2(j)) == 2 * (total * Pow2(j));
  }

  /** And with disconnections they need not: whatever the controller's total, some legal run strands so many packets
      that the credits wrap to zero with nothing outstanding, and on no continuation is anything sent again. */
  lemma DroppedLinksCanStallForEver(total: Uint16, h: Uint16) returns (es: seq<Event>)
    ensures LegalRun(Start(total), es) && Dead(Run(Start(total), es))
    ensures forall more: seq<Event> :: LegalRun(Run(Start(total), es), more) ==> SendsNothing(more)
  {
    assert Pow2(0) == 1;
    es := Doubling(Start(total), h, total, total, 0, 0);
    var w := Run(Start(total), es);
    assert Sum(w.outstanding) == 0;
    StalledExactly(w);
  }
}
