/** Whole runs of the connections over bytes: what holds on all of them, and where the longest ones end. */
module WireRuns {
  import opened Bytes
  import opened Sums
  import opened R = Runs
  import opened ChannelStates
  import opened Connections
  import opened EndToEnd
  import opened WireSystem
  import C = CreditSystem

  ghost function Steps(links: set<Link>): (Net, Action) -> Option<Net> {
    (n, a) => if Enabled(n, links, a) then Some(Step(n, links, a)) else None
  }

  ghost predicate IsRun(n: Net, links: set<Link>, actions: seq<Action>) {
    R.IsRun(Steps(links), n, actions)
  }

  ghost function Run(n: Net, links: set<Link>, actions: seq<Action>): Net
    requires IsRun(n, links, actions)
  {
    R.Run(Steps(links), n, actions)
  }

  /** The part a channel takes in a run. */
  ghost function Trace(n: Net, links: set<Link>, actions: seq<Action>, l: Link): seq<C.Action>
    requires IsRun(n, links, actions)
  {
    R.Trace(Steps(links), Parts(l), n, actions)
  }

  ghost function Parts(l: Link): (Net, Action) -> Option<C.Action> {
    (n, a) => if Concerns(n, a, l) then Some(Part(a)) else None
  }

  predicate NoWrites(actions: seq<Action>) {
    forall i :: 0 <= i < |actions| ==> !actions[i].Write?
  }

  ghost function Goods(links: set<Link>): Net -> bool {
    n => Good(n, links)
  }

  ghost function View(l: Link): Net -> C.System {
    n => if Joined(n, l) then Project(n, l) else var any: C.System :| true; any
  }

  lemma StepsAreGood(links: set<Link>)
    ensures Kept(Steps(links), Goods(links))
  {
    forall n, a | Goods(links)(n) && Steps(links)(n, a).Some? ensures Goods(links)(Steps(links)(n, a).value) {
      StepIsGood(n, links, a);
    }
  }

  lemma StepsAreSimulated(links: set<Link>, l: Link)
    requires l in links
    ensures Simulated(Steps(links), Goods(links), View(l), C.Steps(), Parts(l))
  {
    forall n, a | Goods(links)(n) && Steps(links)(n, a).Some?
      ensures if Parts(l)(n, a).Some?
              then C.Steps()(View(l)(n), Parts(l)(n, a).value) == Some(View(l)(Steps(links)(n, a).value))
              else View(l)(Steps(links)(n, a).value) == View(l)(n)
    {
      StepRefines(n, links, a, l);
    }
  }

  lemma RunIsGood(n: Net, links: set<Link>, actions: seq<Action>)
    requires Good(n, links) && IsRun(n, links, actions)
    ensures Good(Run(n, links, actions), links)
  {
    StepsAreGood(links);
    AlwaysKept(Steps(links), Goods(links), n, actions);
  }

  lemma PartsWriteNothing(n: Net, links: set<Link>, actions: seq<Action>, l: Link)
    requires IsRun(n, links, actions) && NoWrites(actions)
    ensures C.NoWrites(Trace(n, links, actions, l))
  {
    TraceParts(Steps(links), Parts(l), (b: C.Action) => !b.Write?, n, actions);
  }

  /** Every run over bytes is, for each channel, the run of the credit system that its own steps make. */
  lemma {:induction false} RunRefines(n: Net, links: set<Link>, actions: seq<Action>, l: Link)
    requires Good(n, links) && IsRun(n, links, actions) && l in links
    ensures var own := Trace(n, links, actions, l); var t := Run(n, links, actions);
            && Good(t, links) && C.IsRun(Project(n, l), own) && C.Run(Project(n, l), own) == Project(t, l)
            && (NoWrites(actions) ==> C.NoWrites(own))
  {
    RunIsGood(n, links, actions);
    StepsAreGood(links);
    StepsAreSimulated(links, l);
    RunsAreSimulated(Steps(links), Goods(links), View(l), C.Steps(), Parts(l), n, actions);
    if NoWrites(actions) {
      PartsWriteNothing(n, links, actions, l);
    }
  }

  lemma DisconnectionMeans(pdu: seq<Byte>, rx: Uint16, tx: Uint16)
    requires Routable(rx)
    ensures AsksToDisconnect(pdu) ==> C.Disconnection in Message(pdu, rx, tx)
  {
  }

  lemma NobodyAsks(n: Net, links: set<Link>, pdu: seq<Byte>)
    requires Good(n, links) && pdu in n.toRight
    ensures !AsksToDisconnect(pdu)
  {
    assert Meant(pdu, links);
    var l :| l in links && Message(pdu, l.right, l.left) != [];
    FlatMapHas(Hearing(l.right, l.left), n.toRight, pdu);
    assert Hearing(l.right, l.left)(pdu) == Message(pdu, l.right, l.left);
    assert C.Orderly(Project(n, l));
    assert C.Disconnection !in Message(pdu, l.right, l.left);
    DisconnectionMeans(pdu, l.right, l.left);
  }

  /** The channels as they start: matching credits, possibly none, and nothing under way. */
  ghost predicate Initial(n: Net, links: set<Link>) {
    Wired(n, links) && n.toRight == [] && n.toLeft == [] && forall l :: l in links ==> C.Initial(Project(n, l))
  }

  lemma InitialIsGood(n: Net, links: set<Link>)
    requires Initial(n, links)
    ensures Good(n, links)
  {
    forall l | l in links ensures C.Invariant(Project(n, l)) {
      C.InitialInvariant(Project(n, l));
    }
  }

  /** The byte-level system, over every run from its start: no PDU that asks to disconnect is ever on a wire, and on
      each channel each reader has a prefix of what the other end wrote. */
  lemma {:induction false} WireSafety(n: Net, links: set<Link>, actions: seq<Action>)
    requires Initial(n, links) && IsRun(n, links, actions)
    ensures var t := Run(n, links, actions);
            && (forall pdu :: pdu in t.toRight || pdu in t.toLeft ==> !AsksToDisconnect(pdu))
            && Good(t, links)
            && forall l :: l in links ==>
                 && Chan(t.right, l.right).delivered <= t.left.lines[l.left].written
                 && Chan(t.left, l.left).delivered <= t.right.lines[l.right].written
  {
    var t := Run(n, links, actions);
    InitialIsGood(n, links);
    RunIsGood(n, links, actions);
    forall pdu | pdu in t.toRight ensures !AsksToDisconnect(pdu) {
      NobodyAsks(t, links, pdu);
    }
    SwapGood(t, links);
    forall pdu | pdu in t.toLeft ensures !AsksToDisconnect(pdu) {
      NobodyAsks(Swap(t), Backs(links), pdu);
    }
    forall l | l in links
      ensures Chan(t.right, l.right).delivered <= t.left.lines[l.left].written
      ensures Chan(t.left, l.left).delivered <= t.right.lines[l.right].written
    {
      RunRefines(n, links, actions, l);
      C.DeliveredPrefix(Project(n, l), Trace(n, links, actions, l));
    }
  }

  // ------------------------------------------------------------------ progress

  ghost function Works(n: Net, links: set<Link>): map<Link, nat>
    requires Wired(n, links)
  {
    map l | l in links :: C.Work(Project(n, l))
  }

  /** The work of all channels together. */
  ghost function Work(n: Net, links: set<Link>): nat {
    if Wired(n, links) then Sum(Works(n, links)) else 0
  }

  lemma StepConcerns(n: Net, links: set<Link>, a: Action) returns (m: Link)
    requires Good(n, links) && Enabled(n, links, a)
    ensures m in links && forall l :: l in links ==> (Concerns(n, a, l) <==> l == m)
  {
    if a.side.Right? {
      BacksBack(links);
      SwapGood(n, links);
      var back := Concerned(Swap(n), Backs(links), Mirror(a));
      m := Back(back);
      forall l | l in links ensures Concerns(n, a, l) <==> l == m {
        MirrorConcerns(n, a, l);
        assert Back(l) in Backs(links);
      }
    } else {
      m := Concerned(n, links, a);
    }
  }

  lemma OneWorks(n: Net, links: set<Link>, a: Action, l: Link)
    requires Good(n, links) && Enabled(n, links, a) && !a.Write? && l in links
    ensures var t := Step(n, links, a);
            && Good(t, links)
            && (Concerns(n, a, l) ==> C.Work(Project(t, l)) < C.Work(Project(n, l)))
            && (!Concerns(n, a, l) ==> C.Work(Project(t, l)) == C.Work(Project(n, l)))
  {
    StepRefines(n, links, a, l);
    if Concerns(n, a, l) {
      C.WorkDecreases(Project(n, l), Part(a));
    }
  }

  /** Every send and delivery lowers the work of one channel and leaves that of the others. */
  lemma WorkDecreases(n: Net, links: set<Link>, a: Action)
    requires Good(n, links) && Enabled(n, links, a) && !a.Write?
    ensures Good(Step(n, links, a), links) && Work(Step(n, links, a), links) < Work(n, links)
  {
    var t := Step(n, links, a);
    var m := StepConcerns(n, links, a);
    StepIsGood(n, links, a);
    var before, after := Works(n, links), Works(t, links);
    forall l | l in links ensures if l == m then after[l] < before[l] else after[l] == before[l] {
      OneWorks(n, links, a, l);
    }
    SumLess(before, after, m);
  }

  ghost function Working(links: set<Link>): Net -> nat {
    n => Work(n, links)
  }

  lemma RunsAreBounded(n: Net, links: set<Link>, actions: seq<Action>)
    requires Good(n, links) && IsRun(n, links, actions) && NoWrites(actions)
    ensures |actions| <= Work(n, links)
  {
    var quiet := (a: Action) => !a.Write?;
    StepsAreGood(links);
    forall m, a | Goods(links)(m) && quiet(a) && Steps(links)(m, a).Some?
      ensures Working(links)(Steps(links)(m, a).value) < Working(links)(m)
    {
      WorkDecreases(m, links, a);
    }
    Bounded(Steps(links), Goods(links), quiet, Working(links), n, actions);
  }

  /** No send and no delivery is possible. */
  ghost predicate Halted(n: Net, links: set<Link>) {
    forall a: Action :: !a.Write? ==> !Enabled(n, links, a)
  }

  lemma HaltedWires(n: Net, links: set<Link>)
    requires Halted(n, links)
    ensures n.toRight == [] && n.toLeft == []
  {
    assert !Enabled(n, links, Deliver(C.Left)) && !Enabled(n, links, Deliver(C.Right));
  }

  lemma HaltedProjects(n: Net, links: set<Link>, l: Link)
    requires Joined(n, l) && Halted(n, links) && l in links
    ensures C.Halted(Project(n, l))
  {
    HaltedWires(n, links);
    assert !Enabled(n, links, Send(C.Left, l)) && !Enabled(n, links, Send(C.Right, l));
    forall a: C.Action | !a.Write? ensures !C.Enabled(Project(n, l), a) {
    }
  }

  /** On each channel t has what n still owed, as far as the windows are open, and nothing is under way. */
  ghost predicate AllServed(n: Net, t: Net, links: set<Link>)
    requires Wired(n, links) && Wired(t, links)
  {
    t.toRight == [] && t.toLeft == [] && forall l :: l in links ==> C.AllServed(Project(n, l), Project(t, l))
  }

  /** Every maximal run from a reachable state delivers on every channel: once the writers stop, at most Work sends and
      deliveries are possible, and where none is, each reader whose window is open has exactly what was written to it,
      and a direction whose window opened at zero is as it was. */
  lemma {:induction false} MaximalRunsDeliver(n: Net, links: set<Link>, actions: seq<Action>)
    requires Good(n, links) && IsRun(n, links, actions) && NoWrites(actions)
    ensures var t := Run(n, links, actions);
            && Good(t, links) && |actions| <= Work(n, links)
            && (Halted(t, links) ==> AllServed(n, t, links))
  {
    var t := Run(n, links, actions);
    RunIsGood(n, links, actions);
    RunsAreBounded(n, links, actions);
    if Halted(t, links) {
      HaltedWires(t, links);
      forall l | l in links ensures C.AllServed(Project(n, l), Project(t, l)) {
        RunRefines(n, links, actions, l);
        HaltedProjects(t, links, l);
        C.MaximalRunsDeliver(Project(n, l), Trace(n, links, actions, l));
      }
    }
  }

  lemma ClosedDelivers(s: C.System, actions: seq<C.Action>)
    requires C.Initial(s) && C.IsRun(s, actions)
    ensures C.SameWindows(s, C.Run(s, actions))
    ensures s.right.chan.rxCredits == 0 ==> C.Run(s, actions).right.chan.delivered == []
    ensures s.left.chan.rxCredits == 0 ==> C.Run(s, actions).left.chan.delivered == []
  {
    C.InitialInvariant(s);
    C.CreditConservation(s, actions);
    if s.right.chan.rxCredits == 0 {
      C.ClosedWindowStaysClosed(s, actions);
    }
    if s.left.chan.rxCredits == 0 {
      C.FlippedRun(s, actions);
      C.ClosedWindowStaysClosed(C.Flip(s), C.Mirrors(actions));
    }
  }

  /** From the start: after any writes on any channels, every maximal run delivers all of them in the directions that
      opened above zero, and nothing is ever delivered in the others. */
  lemma {:induction false} WireDelivery(n: Net, links: set<Link>, actions: seq<Action>, more: seq<Action>)
    requires Initial(n, links) && IsRun(n, links, actions)
    requires IsRun(Run(n, links, actions), links, more) && NoWrites(more)
    ensures var m := Run(n, links, actions); var t := Run(m, links, more);
            && Good(m, links) && Good(t, links) && |more| <= Work(m, links)
            && (Halted(t, links) ==> AllServed(m, t, links))
            && forall l :: l in links ==>
                 && C.SameWindows(Project(n, l), Project(m, l))
                 && (Chan(n.right, l.right).rxCredits == 0 ==> Chan(m.right, l.right).delivered == [])
                 && (Chan(n.left, l.left).rxCredits == 0 ==> Chan(m.left, l.left).delivered == [])
  {
    var m := Run(n, links, actions);
    InitialIsGood(n, links);
    RunIsGood(n, links, actions);
    MaximalRunsDeliver(m, links, more);
    forall l | l in links
      ensures C.SameWindows(Project(n, l), Project(m, l))
      ensures Chan(n.right, l.right).rxCredits == 0 ==> Chan(m.right, l.right).delivered == []
      ensures Chan(n.left, l.left).rxCredits == 0 ==> Chan(m.left, l.left).delivered == []
    {
      RunRefines(n, links, actions, l);
      ClosedDelivers(Project(n, l), Trace(n, links, actions, l));
    }
  }
}
