/** The two endpoints when the writers keep to no limits: exactly when somebody asks to disconnect. */
module Refusals {
  import opened Bytes
  import opened ChannelStates
  import opened Segmentation
  import opened CreditSystem

  /** A run in which any SDU of up to 65535 bytes may be written. */
  predicate IsFreeRun(s: System, actions: seq<Action>)
    decreases |actions|
  {
    actions == [] ||
    (Possible(s, actions[0]) && (actions[0].Write? ==> |actions[0].sdu| <= 0xFFFF)
     && IsFreeRun(Step(s, actions[0]), actions[1..]))
  }

  function FreeRun(s: System, actions: seq<Action>): System
    requires IsFreeRun(s, actions)
    decreases |actions|
  {
    if actions == [] then s else FreeRun(Step(s, actions[0]), actions[1..])
  }

  /** Nobody's request to disconnect is on its way. */
  predicate Calm(s: System) {
    Disconnection !in s.toLeft && Disconnection !in s.toRight
  }

  /** Nor was one at any moment of the run. */
  predicate CalmRun(s: System, actions: seq<Action>)
    requires IsFreeRun(s, actions)
    decreases |actions|
  {
    Calm(s) && (actions == [] || CalmRun(Step(s, actions[0]), actions[1..]))
  }

  /** Everything the end has written fits the receiver at the other end. */
  predicate Fits(e: Endpoint, c: ChannelState) {
    AllDeliverable(e.written, e.chan.txMPS, c.rxMPS, c.rxMTU)
  }

  /** In each direction that was open in s, everything written in t fits. */
  predicate Harmless(s: System, t: System) {
    (Open(s) ==> Fits(t.left, t.right.chan)) && (Open(Flip(s)) ==> Fits(t.right, t.left.chan))
  }

  /** All the frames the end has to send for what it has written. */
  function AllFrames(e: Endpoint): seq<seq<Byte>> {
    if e.chan.txMPS == 0 then [] else AllSegments(e.written, e.chan.txMPS)
  }

  /** What is on its way to the right end or still unsent. */
  function Coming(s: System): seq<seq<Byte>> {
    Payloads(s.toRight) + s.left.unsent
  }

  predicate SameReception(c: ChannelState, d: ChannelState) {
    c == d.(txCredits := c.txCredits)
  }

  /** Nothing has been refused from left to right so far: credits are conserved, and what is coming will do to the
      receiver what all the frames would have done to it when it was new. */
  predicate Traced(s: System, first: ChannelState) {
    && Conserved(s)
    && SameReception(ReceiveAll(s.right.chan, Coming(s)), ReceiveAll(first, AllFrames(s.left)))
    && (Accepts(s.right.chan, Coming(s)) <==> Accepts(first, AllFrames(s.left)))
    && (Open(s) <==> first.rxCredits > 0)
  }

  /** What does not change on the way, and the sizes of what was written. */
  predicate Within(s: System, first: ChannelState) {
    && Idle(first) && first.rxMPS == s.right.chan.rxMPS && first.rxMTU == s.right.chan.rxMTU
    && (s.left.chan.txMPS == 0 ==> s.left.written == [])
    && forall i :: 0 <= i < |s.left.written| ==> |s.left.written[i]| <= 0xFFFF
  }

  predicate Followed(s: System, l: ChannelState, r: ChannelState) {
    Traced(s, r) && Traced(Flip(s), l) && Within(s, r) && Within(Flip(s), l)
  }

  lemma InitiallyFollowed(s: System)
    requires Initial(s)
    ensures Calm(s) && Followed(s, s.left.chan, s.right.chan)
  {
  }

  // ------------------------------------------------------------------ each step, while nobody asks

  lemma {:induction false} AllSegmentsMore(sdus: seq<seq<Byte>>, sdu: seq<Byte>, mps: nat)
    requires mps > 0
    ensures AllSegments(sdus + [sdu], mps) == AllSegments(sdus, mps) + Segments(sdu, mps)
    decreases |sdus|
  {
    if sdus == [] {
      assert (sdus + [sdu])[1..] == [];
      assert Segments(sdu, mps) + [] == Segments(sdu, mps);
    } else {
      AllSegmentsMore(sdus[1..], sdu, mps);
      assert (sdus + [sdu])[0] == sdus[0] && (sdus + [sdu])[1..] == sdus[1..] + [sdu];
      Associate(Segments(sdus[0], mps), AllSegments(sdus[1..], mps), Segments(sdu, mps));
    }
  }

  /** Two receivers that take a run of frames alike take more alike. */
  lemma AppendAlike(c: ChannelState, a: seq<seq<Byte>>, d: ChannelState, b: seq<seq<Byte>>, fs: seq<seq<Byte>>)
    requires SameReception(ReceiveAll(c, a), ReceiveAll(d, b)) && (Accepts(c, a) <==> Accepts(d, b))
    ensures SameReception(ReceiveAll(c, a + fs), ReceiveAll(d, b + fs)) && (Accepts(c, a + fs) <==> Accepts(d, b + fs))
  {
    ReceiveAllAppend(c, a, fs);
    ReceiveAllAppend(d, b, fs);
    TxCreditsDoNotMatter(ReceiveAll(d, b), ReceiveAll(c, a), fs);
  }

  lemma WriteTraced(s: System, r: ChannelState, a: Action)
    requires Traced(s, r) && a.Write? && PossibleLeft(s, a)
    ensures Traced(StepLeft(s, a), r)
  {
    var t := StepLeft(s, a);
    var fs := Segments(a.sdu, s.left.chan.txMPS);
    AllSegmentsMore(s.left.written, a.sdu, s.left.chan.txMPS);
    Associate(Payloads(s.toRight), s.left.unsent, fs);
    assert Coming(t) == Coming(s) + fs;
    AppendAlike(s.right.chan, Coming(s), r, AllFrames(s.left), fs);
  }

  lemma SendTraced(s: System, r: ChannelState, a: Action)
    requires Traced(s, r) && a.Send? && PossibleLeft(s, a)
    ensures Traced(StepLeft(s, a), r)
  {
    var t := StepLeft(s, a);
    var f := s.left.unsent[0];
    WireAppend(s.toRight, [Data(f)]);
    assert Payloads([Data(f)]) == [f] && CreditSum([Data(f)]) == 0;
    Associate(Payloads(s.toRight), [f], s.left.unsent[1..]);
    assert [f] + s.left.unsent[1..] == s.left.unsent;
    assert Coming(t) == Coming(s);
  }

  /** The other direction, where the left end receives: only its transmit credits and the credits on its way matter. */
  lemma OtherTraced(s: System, t: System, l: ChannelState)
    requires Traced(Flip(s), l) && SameReception(t.left.chan, s.left.chan) && t.right == s.right
    requires Payloads(t.toLeft) == Payloads(s.toLeft) && CreditSum(t.toRight) == CreditSum(s.toRight)
    ensures Traced(Flip(t), l)
  {
    TxCreditsDoNotMatter(s.left.chan, t.left.chan, Coming(Flip(s)));
    assert Coming(Flip(t)) == Coming(Flip(s));
  }

  /** The left end takes a frame and does not refuse it. */
  lemma DataTraced(s: System, l: ChannelState, a: Action)
    requires Traced(Flip(s), l) && a.Deliver? && PossibleLeft(s, a) && s.toLeft[0].Data?
    requires Calm(StepLeft(s, a))
    ensures Traced(Flip(StepLeft(s, a)), l)
  {
    var t := StepLeft(s, a);
    AnswerAppends(s.toRight, Receive(s.left.chan, s.toLeft[0].payload).1);
    ComingHead(Flip(s));
    FrameAccepted(s.left.chan, Coming(Flip(s)));
    assert Conserved(Flip(t));
  }

  lemma ComingHead(s: System)
    requires s.toRight != [] && s.toRight[0].Data?
    ensures Coming(s) != [] && Coming(s)[0] == s.toRight[0].payload
    ensures Coming(s)[1..] == Payloads(s.toRight[1..]) + s.left.unsent
  {
  }

  lemma FrameAccepted(c: ChannelState, frames: seq<seq<Byte>>)
    requires frames != [] && !Receive(c, frames[0]).1.RequestDisconnect?
    ensures var (d, reply) := Receive(c, frames[0]);
            && c.rxCredits > 0 && d.rxCredits > 0
            && d.rxCredits as int == c.rxCredits - 1 + Grant(reply)
            && ReceiveAll(c, frames) == ReceiveAll(d, frames[1..])
            && (Accepts(c, frames) <==> Accepts(d, frames[1..]))
  {
  }

  /** What the left end receives does not concern the direction in which it sends, but for its credits. */
  lemma SenderTraced(s: System, t: System, r: ChannelState)
    requires Traced(s, r) && Conserved(t) && t.right == s.right && Payloads(t.toRight) == Payloads(s.toRight)
    requires t.left.unsent == s.left.unsent && t.left.written == s.left.written
    requires t.left.chan.txMPS == s.left.chan.txMPS
    ensures Traced(t, r)
  {
    assert Coming(t) == Coming(s);
    assert AllFrames(t.left) == AllFrames(s.left);
  }

  lemma AnswerTraced(s: System, r: ChannelState, a: Action)
    requires Traced(s, r) && a.Deliver? && PossibleLeft(s, a) && s.toLeft[0].Data?
    ensures Traced(StepLeft(s, a), r)
  {
    AnswerAppends(s.toRight, Receive(s.left.chan, s.toLeft[0].payload).1);
    SenderTraced(s, StepLeft(s, a), r);
  }

  lemma WithinStays(s: System, l: ChannelState, r: ChannelState, a: Action)
    requires Within(s, r) && Within(Flip(s), l) && PossibleLeft(s, a) && (a.Write? ==> |a.sdu| <= 0xFFFF)
    ensures Within(StepLeft(s, a), r) && Within(Flip(StepLeft(s, a)), l)
  {
  }

  lemma SendFollowed(s: System, l: ChannelState, r: ChannelState, a: Action)
    requires Traced(s, r) && Traced(Flip(s), l) && a.Send? && PossibleLeft(s, a)
    ensures Traced(StepLeft(s, a), r) && Traced(Flip(StepLeft(s, a)), l)
  {
    SendTraced(s, r, a);
    WireAppend(s.toRight, [Data(s.left.unsent[0])]);
    assert CreditSum([Data(s.left.unsent[0])]) == 0;
    OtherTraced(s, StepLeft(s, a), l);
  }

  lemma GrantFollowed(s: System, l: ChannelState, r: ChannelState, a: Action)
    requires Traced(s, r) && Traced(Flip(s), l) && a.Deliver? && PossibleLeft(s, a) && s.toLeft[0].Credits?
    ensures Traced(StepLeft(s, a), r) && Traced(Flip(StepLeft(s, a)), l)
  {
    GrantFits(s, a);
    SenderTraced(s, Granted(s), r);
    OtherTraced(s, Granted(s), l);
  }

  lemma FollowLeft(s: System, l: ChannelState, r: ChannelState, a: Action)
    requires Calm(s) && Followed(s, l, r) && PossibleLeft(s, a) && (a.Write? ==> |a.sdu| <= 0xFFFF)
    requires Calm(StepLeft(s, a))
    ensures Followed(StepLeft(s, a), l, r)
  {
    WithinStays(s, l, r, a);
    match a {
      case Write(_, _) =>
        WriteTraced(s, r, a);
        OtherTraced(s, StepLeft(s, a), l);
      case Send(_) =>
        SendFollowed(s, l, r, a);
      case Deliver(_) =>
        assert s.toLeft[0] in s.toLeft;
        if s.toLeft[0].Data? {
          DataTraced(s, l, a);
          AnswerTraced(s, r, a);
        } else {
          GrantFollowed(s, l, r, a);
        }
    }
  }

  lemma Follow(s: System, l: ChannelState, r: ChannelState, a: Action)
    requires Calm(s) && Followed(s, l, r) && Possible(s, a) && (a.Write? ==> |a.sdu| <= 0xFFFF)
    requires Calm(Step(s, a))
    ensures Followed(Step(s, a), l, r)
  {
    if a.side.Right? {
      FollowLeft(Flip(s), r, l, Mirror(a));
    } else {
      FollowLeft(s, l, r, a);
    }
  }

  // ------------------------------------------------------------------ who asks, and when

  /** As long as nobody has asked, what is coming will be accepted exactly if what was written fits. */
  lemma AcceptedIfFits(s: System, r: ChannelState)
    requires Traced(s, r) && Within(s, r) && Open(s)
    ensures Accepts(s.right.chan, Coming(s)) <==> Fits(s.left, s.right.chan)
  {
    if s.left.chan.txMPS > 0 {
      WritesAcceptedExactly(r, s.left.written, s.left.chan.txMPS);
    }
  }

  /** A step from a harmless state asks for nothing. */
  lemma StaysCalmLeft(s: System, l: ChannelState, r: ChannelState, a: Action)
    requires Calm(s) && Followed(s, l, r) && Harmless(s, s) && PossibleLeft(s, a)
    ensures Calm(StepLeft(s, a))
  {
    if a.Deliver? {
      assert s.toLeft[0] in s.toLeft;
      AnswerAppends(s.toRight, Handle(s.left.chan, s.toLeft[0]).1);
      if s.toLeft[0].Data? {
        AcceptedIfFits(Flip(s), l);
        assert Coming(Flip(s))[0] == s.toLeft[0].payload;
      } else {
        GrantFits(s, a);
        assert Handle(s.left.chan, s.toLeft[0]).1.Quiet?;
      }
    }
  }

  lemma StaysCalm(s: System, l: ChannelState, r: ChannelState, a: Action)
    requires Calm(s) && Followed(s, l, r) && Harmless(s, s) && Possible(s, a)
    ensures Calm(Step(s, a))
  {
    if a.side.Right? {
      StaysCalmLeft(Flip(s), r, l, Mirror(a));
    } else {
      StaysCalmLeft(s, l, r, a);
    }
  }

  lemma FitsBefore(s: System, a: Action)
    requires Possible(s, a)
    ensures var t := Step(s, a);
            && (Fits(t.left, t.right.chan) ==> Fits(s.left, s.right.chan))
            && (Fits(t.right, t.left.chan) ==> Fits(s.right, s.left.chan))
  {
    var t := Step(s, a);
    assert s.left.written <= t.left.written && s.right.written <= t.right.written;
    assert forall i :: 0 <= i < |s.left.written| ==> s.left.written[i] == t.left.written[i];
    assert forall i :: 0 <= i < |s.right.written| ==> s.right.written[i] == t.right.written[i];
  }

  lemma {:induction false} HarmlessBefore(s: System, actions: seq<Action>)
    requires IsFreeRun(s, actions)
    ensures var t := FreeRun(s, actions);
            && (Fits(t.left, t.right.chan) ==> Fits(s.left, s.right.chan))
            && (Fits(t.right, t.left.chan) ==> Fits(s.right, s.left.chan))
    decreases |actions|
  {
    if actions != [] {
      FitsBefore(s, actions[0]);
      HarmlessBefore(Step(s, actions[0]), actions[1..]);
    }
  }

  lemma {:induction false} CalmIfHarmless(s: System, l: ChannelState, r: ChannelState, actions: seq<Action>)
    requires Calm(s) && Followed(s, l, r) && IsFreeRun(s, actions) && Harmless(s, FreeRun(s, actions))
    ensures CalmRun(s, actions)
    decreases |actions|
  {
    if actions != [] {
      HarmlessBefore(s, actions);
      StaysCalm(s, l, r, actions[0]);
      Follow(s, l, r, actions[0]);
      CalmIfHarmless(Step(s, actions[0]), l, r, actions[1..]);
    }
  }

  lemma {:induction false} FollowRun(s: System, l: ChannelState, r: ChannelState, actions: seq<Action>)
    requires Followed(s, l, r) && IsFreeRun(s, actions) && CalmRun(s, actions)
    ensures Calm(FreeRun(s, actions)) && Followed(FreeRun(s, actions), l, r)
    decreases |actions|
  {
    if actions != [] {
      Follow(s, l, r, actions[0]);
      FollowRun(Step(s, actions[0]), l, r, actions[1..]);
    }
  }

  /** Where nothing is left to do and nobody has asked, everything written has fitted. */
  lemma SettledIsHarmless(s: System, l: ChannelState, r: ChannelState)
    requires Followed(s, l, r)
    ensures Settled(s) ==> Harmless(s, s)
  {
    if Settled(s) && Open(s) {
      AcceptedIfFits(s, r);
      assert Coming(s) == [];
    }
    if Settled(s) && Open(Flip(s)) {
      AcceptedIfFits(Flip(s), l);
      assert Coming(Flip(s)) == [];
    }
  }

  /** Refusals, exactly, on every maximal run from a fresh start in which any SDUs of up to 65535 bytes are written:
      nobody ever asks to disconnect if and only if everything written in each open direction was deliverable. */
  lemma {:induction false} RefusedExactly(s: System, actions: seq<Action>)
    requires Initial(s) && IsFreeRun(s, actions) && Halted(FreeRun(s, actions))
    ensures CalmRun(s, actions) <==> Harmless(s, FreeRun(s, actions))
  {
    InitiallyFollowed(s);
    if Harmless(s, FreeRun(s, actions)) {
      CalmIfHarmless(s, s.left.chan, s.right.chan, actions);
    } else if CalmRun(s, actions) {
      FollowRun(s, s.left.chan, s.right.chan, actions);
      NoDeadlock(FreeRun(s, actions));
      SettledIsHarmless(FreeRun(s, actions), s.left.chan, s.right.chan);
    }
  }

  /** From a state that is not harmless, the outstanding work leads to a refusal. */
  lemma {:induction false} SomebodyAsks(s: System, l: ChannelState, r: ChannelState) returns (more: seq<Action>)
    requires Calm(s) && Followed(s, l, r) && !Harmless(s, s)
    ensures NoWrites(more) && IsFreeRun(s, more) && !CalmRun(s, more)
    decreases Work(s)
  {
    SettledIsHarmless(s, l, r);
    var a := Movable(s);
    var t := Step(s, a);
    if Calm(t) {
      Follow(s, l, r, a);
      WorkDecreases(s, a);
      FitsAfter(s, a);
      var rest := SomebodyAsks(t, l, r);
      more := [a] + rest;
      assert more[1..] == rest;
    } else {
      more := [a];
      assert more[1..] == [];
    }
  }

  /** Sends and deliveries change nothing about what was written. */
  lemma FitsAfter(s: System, a: Action)
    requires Possible(s, a) && !a.Write?
    ensures var t := Step(s, a);
            && (Fits(t.left, t.right.chan) <==> Fits(s.left, s.right.chan))
            && (Fits(t.right, t.left.chan) <==> Fits(s.right, s.left.chan))
  {
  }

  lemma {:induction false} HarmlessAfter(s: System, actions: seq<Action>)
    requires IsFreeRun(s, actions) && NoWrites(actions)
    ensures var t := FreeRun(s, actions);
            && (Fits(t.left, t.right.chan) <==> Fits(s.left, s.right.chan))
            && (Fits(t.right, t.left.chan) <==> Fits(s.right, s.left.chan))
    decreases |actions|
  {
    if actions != [] {
      assert !actions[0].Write?;
      FitsAfter(s, actions[0]);
      HarmlessAfter(Step(s, actions[0]), actions[1..]);
    }
  }

  /** And in any reachable state where nobody has asked yet: without another write somebody may still come to ask, if
      and only if something undeliverable has been written in an open direction. */
  lemma {:induction false} MayYetBeRefused(s: System, actions: seq<Action>)
    requires Initial(s) && IsFreeRun(s, actions) && CalmRun(s, actions)
    ensures var t := FreeRun(s, actions);
            (exists more :: NoWrites(more) && IsFreeRun(t, more) && !CalmRun(t, more)) <==> !Harmless(s, t)
  {
    var t, l, r := FreeRun(s, actions), s.left.chan, s.right.chan;
    InitiallyFollowed(s);
    FollowRun(s, l, r, actions);
    if Harmless(s, t) {
      forall more | NoWrites(more) && IsFreeRun(t, more) ensures CalmRun(t, more) {
        HarmlessAfter(t, more);
        CalmIfHarmless(t, l, r, more);
      }
    } else {
      var more := SomebodyAsks(t, l, r);
    }
  }
}
