/** What the invariant of the pending-signal stack means for senders and the consumer. */
module SignalStackTheorems {
  import opened Common
  import opened SignalStack
  import opened SignalStackProof

  /** In every interleaving the operations, in the order they took effect, are those of a stack;
      the list from the head is finite, without repetition, ends in NULL, and holds exactly the
      messages pushed and not yet popped, newest first, in frames that are in use. */
  lemma Linearizable(s: State, steps: seq<Step>)
    requires Init(s) && CanRun(s, steps)
    ensures var t := After(s, steps);
            && |t.frames| == FRAMES && Legal(t.log)
            && t.head == HeadOf(t.list) && Distinct(t.list) && Linked(t.frames, t.list)
            && ListHolds(t.frames, t.list, StackOf(t.log))
            && (forall i :: 0 <= i < |t.list| ==> t.frames[t.list[i]].used)
  {
    InitInv(s);
    RunKeepsInv(s, steps);
  }

  lemma LogGrows(s: State, step: Step)
    requires Enabled(s, step)
    ensures var t := Next(s, step);
            && (t.log == s.log || (t.log != [] && t.log == s.log + [t.log[|t.log| - 1]]))
            && (t.head != s.head ==> t.log != s.log && !t.log[|t.log| - 1].WasEmpty?)
            && (step.PushStep? ==> |t.pushes| == |s.pushes|)
            && (step.PushStep? ==> t.pushes == s.pushes[step.p := s.pushes[step.p].(pc := t.pushes[step.p].pc)])
            && (!step.PushStep? && !step.Start? ==> t.pushes == s.pushes)
            && (t.log != s.log && t.log[|t.log| - 1].Pushed? <==>
                  step.PushStep? && t.pushes[step.p].pc == Return(true))
            && (step.PushStep? && t.pushes[step.p].pc == Return(true) ==> t.log[|t.log| - 1].m == s.pushes[step.p].msg)
  {
  }

  lemma LastIsLegal(log: seq<Event>, e: Event)
    requires Legal(log + [e])
    ensures LegalAt(StackOf(log), e) && StackOf(log + [e]) == StackStep(StackOf(log), e)
  {
    assert (log + [e])[..|log|] == log;
    assert LegalAt(StackOf((log + [e])[..|log|]), (log + [e])[|log|]);
  }

  /** The head moves only in a step that is one push or one pop of the abstract stack. */
  lemma HeadMovesOnce(s: State, step: Step)
    requires Inv(s) && Enabled(s, step) && Next(s, step).head != s.head
    ensures var t := Next(s, step); var e := t.log[|t.log| - 1];
            && t.log == s.log + [e] && !e.WasEmpty?
            && (e.Pushed? ==> StackOf(t.log) == [e.m] + StackOf(s.log))
            && (e.Took? ==> [e.m] + StackOf(t.log) == StackOf(s.log))
  {
    var t := Next(s, step);
    LogGrows(s, step);
    assert Legal(t.log) by { StepKeepsInv(s, step); }
    LastIsLegal(s.log, t.log[|t.log| - 1]);
  }

  // ---- Exactly once --------------------------------------------------------------------------

  function PushedMsgs(log: seq<Event>): (m: multiset<Msg>) {
    if log == [] then multiset{}
    else PushedMsgs(log[..|log| - 1]) + if log[|log| - 1].Pushed? then multiset{log[|log| - 1].m} else multiset{}
  }

  function TakenMsgs(log: seq<Event>): (m: multiset<Msg>) {
    if log == [] then multiset{}
    else TakenMsgs(log[..|log| - 1]) + if log[|log| - 1].Took? then multiset{log[|log| - 1].m} else multiset{}
  }

  /** The messages of the senders to whom push has returned 1. */
  function AcceptedMsgs(pushes: seq<Push>): (m: multiset<Msg>) {
    if pushes == [] then multiset{}
    else
      var p := pushes[|pushes| - 1];
      AcceptedMsgs(pushes[..|pushes| - 1]) + if p.pc == Return(true) then multiset{p.msg} else multiset{}
  }

  lemma {:induction false} UpdatePush(pushes: seq<Push>, p: nat, pc: Pc)
    requires p < |pushes| && pushes[p].pc != Return(true)
    ensures AcceptedMsgs(pushes[p := pushes[p].(pc := pc)])
            == AcceptedMsgs(pushes) + if pc == Return(true) then multiset{pushes[p].msg} else multiset{}
  {
    var n := |pushes| - 1;
    var r := pushes[p := pushes[p].(pc := pc)];
    if p == n {
      assert r[..n] == pushes[..n];
    } else {
      assert r[..n] == pushes[..n][p := pushes[p].(pc := pc)];
      UpdatePush(pushes[..n], p, pc);
      assert r[n] == pushes[n];
      var a := if pc == Return(true) then multiset{pushes[p].msg} else multiset{};
      var b := if pushes[n].pc == Return(true) then multiset{pushes[n].msg} else multiset{};
      assert AcceptedMsgs(pushes[..n]) + a + b == AcceptedMsgs(pushes[..n]) + b + a;
    }
  }

  lemma StepAccounts(s: State, step: Step)
    requires Enabled(s, step) && PushedMsgs(s.log) == AcceptedMsgs(s.pushes)
    ensures var t := Next(s, step); PushedMsgs(t.log) == AcceptedMsgs(t.pushes)
  {
    var t := Next(s, step);
    LogGrows(s, step);
    if t.log != s.log {
      assert t.log[..|t.log| - 1] == s.log;
    }
    if step.PushStep? {
      UpdatePush(s.pushes, step.p, t.pushes[step.p].pc);
    } else if step.Start? {
      assert t.pushes[..|s.pushes|] == s.pushes;
    }
  }

  lemma {:induction false} RunAccounts(s: State, steps: seq<Step>)
    requires CanRun(s, steps) && PushedMsgs(s.log) == AcceptedMsgs(s.pushes)
    ensures PushedMsgs(After(s, steps).log) == AcceptedMsgs(After(s, steps).pushes)
    decreases |steps|
  {
    if steps != [] {
      StepAccounts(s, steps[0]);
      RunAccounts(Next(s, steps[0]), steps[1..]);
    }
  }

  lemma {:induction false} StackAccounts(log: seq<Event>)
    requires Legal(log)
    ensures PushedMsgs(log) == TakenMsgs(log) + multiset(StackOf(log))
  {
    if log != [] {
      var n := |log| - 1;
      forall k | 0 <= k < n ensures LegalAt(StackOf(log[..n][..k]), log[..n][k]) {
        assert log[..n][..k] == log[..k];
      }
      StackAccounts(log[..n]);
      var st, e := StackOf(log[..n]), log[n];
      assert LegalAt(st, e);
      EventAccounts(st, e);
      Balance(PushedMsgs(log[..n]), TakenMsgs(log[..n]), multiset(st), multiset(StackStep(st, e)),
              if e.Pushed? then multiset{e.m} else multiset{}, if e.Took? then multiset{e.m} else multiset{});
    }
  }

  lemma Balance(pushed: multiset<Msg>, taken: multiset<Msg>, st: multiset<Msg>, st': multiset<Msg>, a: multiset<Msg>,
                b: multiset<Msg>)
    requires pushed == taken + st && st' + b == st + a
    ensures pushed + a == taken + b + st'
  {
    forall m: Msg ensures (pushed + a)[m] == (taken + b + st')[m] {
      assert (st' + b)[m] == (st + a)[m] && pushed[m] == (taken + st)[m];
    }
  }

  lemma EventAccounts(st: seq<Msg>, e: Event)
    requires LegalAt(st, e)
    ensures multiset(StackStep(st, e)) + (if e.Took? then multiset{e.m} else multiset{})
         == multiset(st) + if e.Pushed? then multiset{e.m} else multiset{}
  {
    if e.Took? { assert st == [st[0]] + st[1..]; }
  }

  /** Nothing is lost or invented: the messages for which push returned 1 are those popped plus
      those on the list, each as often as it was sent. */
  lemma ExactlyOnce(s: State, steps: seq<Step>)
    requires Init(s) && CanRun(s, steps)
    ensures var t := After(s, steps);
            AcceptedMsgs(t.pushes) == TakenMsgs(t.log) + multiset(StackOf(t.log))
  {
    InitInv(s);
    RunKeepsInv(s, steps);
    RunAccounts(s, steps);
    StackAccounts(After(s, steps).log);
  }
}
