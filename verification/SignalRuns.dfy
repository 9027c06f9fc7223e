/** Runs of the pending-signal stack (proc.c: push, pop, fix_tf) built step by step: one in which messages
    mix, one in which dropped signals use up the frames, and a push that runs alone. */
module SignalRuns {
  import opened SignalStack
  import opened SignalStackProof

  // ---- Runs in pieces ------------------------------------------------------------------------

  lemma {:induction false} RunConcat(s: State, a: seq<Step>, b: seq<Step>)
    requires CanRun(s, a) && CanRun(After(s, a), b)
    ensures CanRun(s, a + b) && After(s, a + b) == After(After(s, a), b)
    ensures Drops(a + b) == Drops(a) + Drops(b)
    decreases |a|
  {
    hide Next, Enabled;
    if a == [] {
      assert a + b == b;
    } else {
      assert (a + b)[1..] == a[1..] + b;
      RunConcat(Next(s, a[0]), a[1..], b);
    }
  }

  lemma OneMore(s: State, a: seq<Step>, step: Step, t: State)
    requires CanRun(s, a) && Enabled(After(s, a), step) && t == Next(After(s, a), step)
    ensures CanRun(s, a + [step]) && After(s, a + [step]) == t
    ensures Drops(a + [step]) == Drops(a) + if step.Drop? then 1 else 0
  {
    hide Next, Enabled;
    assert [step][1..] == [];
    RunConcat(s, a, [step]);
  }

  /** How many signals the run drops. */
  function Drops(steps: seq<Step>): (n: nat) {
    if steps == [] then 0 else (if steps[0].Drop? then 1 else 0) + Drops(steps[1..])
  }

  // ---- A sender fills the first unused frame -------------------------------------------------

  lemma {:induction false} ScanTo(s: State, p: nat, i: nat, r: nat) returns (steps: seq<Step>)
    requires InRange(s) && p < |s.pushes| && s.pushes[p].pc == Scan(i) && i <= r <= FRAMES
    requires forall k :: i <= k < r ==> s.frames[k].used
    ensures CanRun(s, steps) && After(s, steps) == SetPc(s, p, Scan(r)) && Drops(steps) == 0
    decreases r - i
  {
    if i == r {
      steps := [];
      assert s == SetPc(s, p, Scan(r));
    } else {
      var t := SetPc(s, p, Scan(i + 1));
      assert t == Next(s, PushStep(p));
      var rest := ScanTo(t, p, i + 1, r);
      assert ([PushStep(p)] + rest)[1..] == rest;
      assert SetPc(t, p, Scan(r)) == SetPc(s, p, Scan(r));
      steps := [PushStep(p)] + rest;
    }
  }

  /** Frame r with message b in it, claimed by sender p and not yet linked. */
  function Filled(s: State, p: nat, b: Msg, r: nat): (t: State)
    requires InRange(s) && p < |s.pushes| && r < FRAMES
  {
    s.(frames := s.frames[r := s.frames[r].(msg := b, used := true)],
       pushes := s.pushes[p := Push(b, LoadHead(r))],
       roles := s.roles[r := OfSender(p)])
  }

  lemma Fill(s: State, p: nat, b: Msg, r: nat) returns (steps: seq<Step>)
    requires InRange(s) && p < |s.pushes| && s.pushes[p] == Push(b, Scan(r)) && r < FRAMES && !s.frames[r].used
    ensures CanRun(s, steps) && After(s, steps) == Filled(s, p, b, r) && Drops(steps) == 0
  {
    var q := PushStep(p);
    var s1 := Next(s, q);
    OneMore(s, [], q, s1);
    var s2 := Next(s1, q);
    OneMore(s, [] + [q], q, s2);
    var s3 := Next(s2, q);
    OneMore(s, [] + [q] + [q], q, s3);
    OneMore(s, [] + [q] + [q] + [q], q, Filled(s, p, b, r));
    steps := [] + [q] + [q] + [q] + [q];
  }

  /** A new sender, when frame r is the first that is not in use. */
  lemma FillFirst(s: State, b: Msg, r: nat) returns (steps: seq<Step>, t: State)
    requires InRange(s) && r < FRAMES && !s.frames[r].used && forall k :: 0 <= k < r ==> s.frames[k].used
    ensures CanRun(s, steps) && After(s, steps) == t && Drops(steps) == 0 && InRange(t)
    ensures t == Filled(s.(pushes := s.pushes + [Push(b, Scan(0))]), |s.pushes|, b, r)
  {
    var p := |s.pushes|;
    var s1 := Next(s, Start(b));
    assert s1 == s.(pushes := s.pushes + [Push(b, Scan(0))]);
    OneMore(s, [], Start(b), s1);
    var x := ScanTo(s1, p, 0, r);
    RunConcat(s, [] + [Start(b)], x);
    var s2 := SetPc(s1, p, Scan(r));
    var y := Fill(s2, p, b, r);
    RunConcat(s, [] + [Start(b)] + x, y);
    steps := [] + [Start(b)] + x + y;
    t := After(s, steps);
  }

  /** Its sender has linked frame r, and the consumer has popped it. */
  function Taken(s: State, p: nat, r: nat): (t: State)
    requires InRange(s) && p < |s.pushes| && r < FRAMES
  {
    s.(frames := s.frames[r := s.frames[r].(next := s.head)],
       pushes := s.pushes[p := s.pushes[p].(pc := Return(true))],
       consumer := Popped(r, s.frames[r].msg),
       roles := s.roles[r := OfConsumer],
       log := s.log + [Pushed(s.pushes[p].msg)] + [Took(s.frames[r].msg)])
  }

  lemma Link(s: State, p: nat, r: nat) returns (steps: seq<Step>, t: State)
    requires InRange(s) && p < |s.pushes| && s.pushes[p].pc == LoadHead(r)
    ensures CanRun(s, steps) && After(s, steps) == t && Drops(steps) == 0
    ensures t == s.(frames := s.frames[r := s.frames[r].(next := s.head)],
                    pushes := s.pushes[p := s.pushes[p].(pc := Return(true))],
                    head := r, list := [r] + s.list, roles := s.roles[r := OnList],
                    log := s.log + [Pushed(s.pushes[p].msg)])
  {
    var q := PushStep(p);
    var s1 := Next(s, q);
    OneMore(s, [], q, s1);
    var s2 := Next(s1, q);
    OneMore(s, [] + [q], q, s2);
    t := Next(s2, q);
    OneMore(s, [] + [q] + [q], q, t);
    steps := [] + [q] + [q] + [q];
  }

  lemma LinkAndPop(s: State, p: nat, r: nat) returns (steps: seq<Step>)
    requires InRange(s) && p < |s.pushes| && s.pushes[p].pc == LoadHead(r) && s.consumer == Ready
    ensures CanRun(s, steps) && After(s, steps) == Taken(s, p, r) && Drops(steps) == 0
  {
    var x, t := Link(s, p, r);
    var t1 := Next(t, PopLoadHead);
    OneMore(s, x, PopLoadHead, t1);
    var t2 := Next(t1, PopLoadNext);
    OneMore(s, x + [PopLoadHead], PopLoadNext, t2);
    assert t.list[1..] == s.list;
    OneMore(s, x + [PopLoadHead] + [PopLoadNext], PopCas, Taken(s, p, r));
    steps := x + [PopLoadHead] + [PopLoadNext] + [PopCas];
  }

  /** A message goes through frame r: sent by a new sender and popped. */
  lemma SendAndPop(s: State, b: Msg, r: nat) returns (steps: seq<Step>, t: State)
    requires InRange(s) && r < FRAMES && !s.frames[r].used && forall k :: 0 <= k < r ==> s.frames[k].used
    requires s.consumer == Ready
    ensures CanRun(s, steps) && After(s, steps) == t && Drops(steps) == 0 && InRange(t)
    ensures t.consumer == Popped(r, b) && t.roles == s.roles[r := OfConsumer]
    ensures forall k :: 0 <= k < FRAMES ==> t.frames[k].used == (s.frames[k].used || k == r)
  {
    var x, u := FillFirst(s, b, r);
    var y := LinkAndPop(u, |s.pushes|, r);
    RunConcat(s, x, y);
    steps := x + y;
    t := After(s, steps);
  }

  // ---- Messages that mix ---------------------------------------------------------------------

  /** fix_tf clears `used` before it reads the fields, so a second sender can overwrite them in
      between: for any two messages there is a run in which the one popped is delivered with the
      sender and value of the other. */
  lemma EarlyReleaseMixesMessages(s: State, a: Msg, b: Msg) returns (steps: seq<Step>)
    requires Init(s)
    ensures CanRun(s, steps) && After(s, steps).consumer == Delivered(a, b.sender, b.value)
  {
    var x, s1 := SendAndPop(s, a, 0);
    var s2 := Next(s1, Release);
    OneMore(s, x, Release, s2);
    var z, s3 := FillFirst(s2, b, 0);
    RunConcat(s, x + [Release], z);
    var s4 := Next(s3, ReadValue);
    OneMore(s, x + [Release] + z, ReadValue, s4);
    OneMore(s, x + [Release] + z + [ReadValue], ReadSender, Next(s4, ReadSender));
    steps := x + [Release] + z + [ReadValue] + [ReadSender];
  }

  // ---- Dropped signals -----------------------------------------------------------------------

  function LeakedIn(roles: seq<Role>): (n: nat)
    ensures n <= |roles|
  {
    if roles == [] then 0 else LeakedIn(roles[..|roles| - 1]) + if roles[|roles| - 1].Leaked? then 1 else 0
  }

  lemma {:induction false} UpdateRole(roles: seq<Role>, k: nat, r: Role)
    requires k < |roles|
    ensures LeakedIn(roles[k := r]) == LeakedIn(roles) - (if roles[k].Leaked? then 1 else 0) + if r.Leaked? then 1 else 0
  {
    var n := |roles| - 1;
    if k == n {
      assert roles[k := r][..n] == roles[..n];
    } else {
      assert roles[k := r][..n] == roles[..n][k := r];
      UpdateRole(roles[..n], k, r);
    }
  }

  lemma {:induction false} AllLeaked(roles: seq<Role>)
    ensures LeakedIn(roles) == |roles| <==> forall k :: 0 <= k < |roles| ==> roles[k].Leaked?
    ensures LeakedIn(roles) == 0 <==> forall k :: 0 <= k < |roles| ==> !roles[k].Leaked?
  {
    if roles != [] {
      var n := |roles| - 1;
      AllLeaked(roles[..n]);
      assert forall k :: 0 <= k < n ==> roles[..n][k] == roles[k];
    }
  }

  /** The frame whose role a step changes was free, or belonged to whoever makes the step. */
  lemma RoleStep(s: State, step: Step) returns (k: nat)
    requires Inv(s) && Enabled(s, step)
    ensures k < FRAMES && |Next(s, step).roles| == FRAMES
    ensures var t := Next(s, step);
            && t.roles == s.roles[k := t.roles[k]]
            && (if step.Drop? then t.roles[k] == Leaked && s.roles[k] != Leaked
                else t.roles[k] == s.roles[k] || (t.roles[k] != Leaked && s.roles[k] != Leaked))
  {
    hide Linked, ListHolds, Legal, StackOf, StoredOk;
    var t := Next(s, step);
    k := 0;
    if step.PushStep? {
      var pc := s.pushes[step.p].pc;
      if pc.Scan? {
        if pc.i < FRAMES { k := pc.i; }
      } else {
        k := pc.k;
        assert Owns(pc, k) && s.roles[k] == OfSender(step.p);
      }
    } else if !step.Start? && !s.consumer.Ready? && !s.consumer.Delivered? {
      k := s.consumer.k;
    }
  }

  lemma LeaksStep(s: State, step: Step)
    requires Inv(s) && Enabled(s, step)
    ensures LeakedIn(Next(s, step).roles) == LeakedIn(s.roles) + if step.Drop? then 1 else 0
  {
    hide Inv, Next, Enabled;
    var k := RoleStep(s, step);
    var t := Next(s, step);
    RolesLength(s);
    UpdateRole(s.roles, k, t.roles[k]);
  }

  lemma RolesLength(s: State)
    requires Inv(s)
    ensures |s.roles| == FRAMES
  {
  }

  lemma {:induction false} RunLeaks(s: State, steps: seq<Step>)
    requires Inv(s) && CanRun(s, steps)
    ensures LeakedIn(After(s, steps).roles) == LeakedIn(s.roles) + Drops(steps) && Inv(After(s, steps))
    decreases |steps|
  {
    hide Inv, Next, Enabled;
    if steps != [] {
      LeaksStep(s, steps[0]);
      StepKeepsInv(s, steps[0]);
      RunLeaks(Next(s, steps[0]), steps[1..]);
    }
  }

  /** A signal popped while the handler is the default is dropped and its frame stays in use for good: in
      every run as many frames are lost as signals were dropped. */
  lemma LeaksAreDrops(s: State, steps: seq<Step>)
    requires Init(s) && CanRun(s, steps)
    ensures LeakedIn(After(s, steps).roles) == Drops(steps) <= FRAMES
  {
    hide Inv, Next, Enabled;
    InitInv(s);
    AllLeaked(s.roles);
    RunLeaks(s, steps);
    RolesLength(After(s, steps));
  }

  // ---- A push that runs alone ----------------------------------------------------------------

  predicate SomeFree(roles: seq<Role>, i: nat) {
    exists k :: i <= k < |roles| && roles[k] == Free
  }

  /** What sender p's push will return if no other thread runs. */
  predicate Promise(s: State, p: nat)
    requires p < |s.pushes|
  {
    match s.pushes[p].pc
    case Scan(i) => SomeFree(s.roles, i)
    case Return(ok) => ok
    case _ => true
  }

  lemma PromiseStep(s: State, p: nat)
    requires Inv(s) && Enabled(s, PushStep(p))
    ensures var t := Next(s, PushStep(p)); p < |t.pushes| && (Promise(t, p) <==> Promise(s, p))
  {
    hide Linked, ListHolds, Legal, StackOf, StoredOk, ConsumerOk;
    var t := Next(s, PushStep(p));
    if s.pushes[p].pc.Scan? {
      var i := s.pushes[p].pc.i;
      if i < FRAMES {
        assert s.frames[i].used <==> s.roles[i] != Free;
        assert SomeFree(s.roles, i) <==> s.roles[i] == Free || SomeFree(s.roles, i + 1);
      }
    }
  }

  function Repeat(p: nat, n: nat): (steps: seq<Step>) {
    if n == 0 then [] else [PushStep(p)] + Repeat(p, n - 1)
  }

  lemma {:induction false} PromiseKept(s: State, p: nat, n: nat)
    requires Inv(s) && p < |s.pushes| && CanRun(s, Repeat(p, n))
    ensures var t := After(s, Repeat(p, n)); p < |t.pushes| && (Promise(t, p) <==> Promise(s, p))
    decreases n
  {
    hide Inv, Next, Promise;
    if n > 0 {
      var steps := Repeat(p, n);
      assert steps[0] == PushStep(p) && steps[1..] == Repeat(p, n - 1);
      PromiseStep(s, p);
      StepKeepsInv(s, PushStep(p));
      PromiseKept(Next(s, PushStep(p)), p, n - 1);
    }
  }

  /** A push that runs alone, started in any state that a run reaches, returns 1 if and only if some frame is
      free: not on the list, not with a sender or the consumer, and not dropped. */
  lemma PushAlone(s: State, steps: seq<Step>, msg: Msg, n: nat)
    requires Init(s) && CanRun(s, steps)
    requires Enabled(After(s, steps), Start(msg)) && CanRun(Next(After(s, steps), Start(msg)), Repeat(|After(s, steps).pushes|, n))
    ensures var t := After(s, steps);
            var u := After(Next(t, Start(msg)), Repeat(|t.pushes|, n));
            && |t.pushes| < |u.pushes|
            && forall ok :: u.pushes[|t.pushes|].pc == Return(ok) ==> (ok <==> SomeFree(t.roles, 0))
  {
    hide Inv;
    InitInv(s);
    RunKeepsInv(s, steps);
    var t := After(s, steps);
    StepKeepsInv(t, Start(msg));
    PromiseKept(Next(t, Start(msg)), |t.pushes|, n);
  }

  /** And it does return. */
  lemma PushAloneEnds(t: State, msg: Msg) returns (steps: seq<Step>)
    requires Inv(t)
    ensures CanRun(t, steps) && Drops(steps) == 0
    ensures var u := After(t, steps);
            |t.pushes| < |u.pushes| && u.pushes[|t.pushes|].pc == Return(SomeFree(t.roles, 0))
  {
    hide Linked, ListHolds, Legal, StackOf, StoredOk, ConsumerOk;
    var p := |t.pushes|;
    if SomeFree(t.roles, 0) {
      var r := FirstUnused(t);
      var x, u := FillFirst(t, msg, r);
      var y, v := Link(u, p, r);
      RunConcat(t, x, y);
      steps := x + y;
    } else {
      var t1 := Next(t, Start(msg));
      OneMore(t, [], Start(msg), t1);
      var x := ScanTo(t1, p, 0, FRAMES);
      RunConcat(t, [] + [Start(msg)], x);
      var t2 := SetPc(t1, p, Scan(FRAMES));
      OneMore(t, [] + [Start(msg)] + x, PushStep(p), Next(t2, PushStep(p)));
      steps := [] + [Start(msg)] + x + [PushStep(p)];
    }
  }

  lemma FirstUnused(t: State) returns (r: nat)
    requires InRange(t) && UsedOk(t.frames, t.roles) && SomeFree(t.roles, 0)
    ensures r < FRAMES && !t.frames[r].used && forall k :: 0 <= k < r ==> t.frames[k].used
  {
    r := 0;
    while t.frames[r].used
      invariant r < FRAMES && forall k :: 0 <= k < r ==> t.frames[k].used
      decreases FRAMES - r
    {
      assert exists k :: r < k < FRAMES && t.roles[k] == Free;
      r := r + 1;
    }
  }

  // ---- Using up the frames -------------------------------------------------------------------

  /** The first r frames are lost and the others free. */
  predicate LostUpTo(s: State, r: nat) {
    && InRange(s) && s.consumer == Ready
    && forall k :: 0 <= k < FRAMES ==> if k < r then s.roles[k] == Leaked && s.frames[k].used
                                       else s.roles[k] == Free && !s.frames[k].used
  }

  lemma DropRound(s: State, b: Msg, r: nat) returns (steps: seq<Step>)
    requires LostUpTo(s, r) && r < FRAMES
    ensures CanRun(s, steps) && LostUpTo(After(s, steps), r + 1) && Drops(steps) == 1
  {
    var x, t := SendAndPop(s, b, r);
    OneMore(s, x, Drop, Next(t, Drop));
    steps := x + [Drop];
  }

  lemma {:induction false} DropRounds(s: State, b: Msg, r: nat) returns (steps: seq<Step>)
    requires LostUpTo(s, r) && r <= FRAMES
    ensures CanRun(s, steps) && LostUpTo(After(s, steps), FRAMES) && Drops(steps) == FRAMES - r
    decreases FRAMES - r
  {
    if r == FRAMES {
      steps := [];
    } else {
      var x := DropRound(s, b, r);
      var y := DropRounds(After(s, x), b, r + 1);
      RunConcat(s, x, y);
      steps := x + y;
    }
  }

  lemma LeakStep(s: State, step: Step)
    requires Inv(s) && Enabled(s, step) && forall k :: 0 <= k < FRAMES ==> s.roles[k] == Leaked
    ensures var t := Next(s, step);
            && t.roles == s.roles && |t.pushes| >= |s.pushes|
            && (forall p :: 0 <= p < |t.pushes| && t.pushes[p].pc == Return(true) ==>
                  p < |s.pushes| && s.pushes[p].pc == Return(true))
  {
    assert forall p, k: nat :: 0 <= p < |s.pushes| && k < FRAMES ==> !Owns(s.pushes[p].pc, k);
  }

  /** From then on no push succeeds, in any interleaving. */
  lemma {:induction false} NoneAccepted(s: State, steps: seq<Step>)
    requires Inv(s) && CanRun(s, steps) && forall k :: 0 <= k < FRAMES ==> s.roles[k] == Leaked
    ensures var t := After(s, steps);
            forall p :: 0 <= p < |t.pushes| && t.pushes[p].pc == Return(true) ==>
              p < |s.pushes| && s.pushes[p].pc == Return(true)
    decreases |steps|
  {
    if steps != [] {
      LeakStep(s, steps[0]);
      StepKeepsInv(s, steps[0]);
      NoneAccepted(Next(s, steps[0]), steps[1..]);
    }
  }

  /** Some sender for whom push had not returned 1 in t has got it in u. */
  predicate NewlyAccepted(t: State, u: State) {
    exists p :: 0 <= p < |u.pushes| && u.pushes[p].pc == Return(true) && (p < |t.pushes| ==> t.pushes[p].pc != Return(true))
  }

  /** The consumer lets go of the frame it has popped, and a new sender gets it. */
  lemma ReleaseAndSend(t: State, msg: Msg) returns (steps: seq<Step>)
    requires Inv(t) && t.consumer.Popped?
    ensures CanRun(t, steps) && NewlyAccepted(t, After(t, steps))
  {
    hide Linked, ListHolds, Legal, StackOf, StoredOk;
    var u := Next(t, Release);
    assert u.roles[t.consumer.k] == Free && u.pushes == t.pushes;
    OneMore(t, [], Release, u);
    assert Inv(u) by { StepKeepsInv(t, Release); }
    var x := PushAloneEnds(u, msg);
    RunConcat(t, [] + [Release], x);
    steps := [] + [Release] + x;
  }

  /** The consumer finishes what it is at: it has popped a frame, or is ready and has left the list. */
  lemma ConsumerFinishes(t: State) returns (steps: seq<Step>)
    requires InRange(t)
    ensures CanRun(t, steps)
    ensures var u := After(t, steps);
            u.pushes == t.pushes && (u.consumer.Popped? || (u.consumer.Ready? && u.head == t.head && InRange(u)))
    decreases match t.consumer case LoadedHead(_) => 2 case ReadingValue(_, _) => 3 case ReadingSender(_, _, _) => 2
                               case Ready => 0 case Popped(_, _) => 0 case _ => 1
  {
    if t.consumer.Ready? || t.consumer.Popped? {
      steps := [];
    } else {
      var step := if t.consumer.LoadedHead? then PopLoadNext else if t.consumer.LoadedNext? then PopCas
                  else if t.consumer.ReadingValue? then ReadValue else if t.consumer.ReadingSender? then ReadSender
                  else Handled;
      var u := Next(t, step);
      OneMore(t, [], step, u);
      if u.consumer.Popped? {
        steps := [] + [step];
      } else {
        var rest := ConsumerFinishes(u);
        RunConcat(t, [] + [step], rest);
        steps := [] + [step] + rest;
      }
    }
  }

  lemma PopFirst(t: State) returns (steps: seq<Step>)
    requires InRange(t) && t.consumer.Ready? && t.head != NULL
    ensures CanRun(t, steps) && After(t, steps).consumer.Popped? && After(t, steps).pushes == t.pushes
  {
    var t1 := Next(t, PopLoadHead);
    OneMore(t, [], PopLoadHead, t1);
    var t2 := Next(t1, PopLoadNext);
    OneMore(t, [] + [PopLoadHead], PopLoadNext, t2);
    OneMore(t, [] + [PopLoadHead] + [PopLoadNext], PopCas, Next(t2, PopCas));
    steps := [] + [PopLoadHead] + [PopLoadNext] + [PopCas];
  }

  /** A sender that has claimed a frame gets it onto the list when it runs alone. */
  lemma SenderFinishes(t: State, p: nat) returns (steps: seq<Step>)
    requires InRange(t) && p < |t.pushes| && !t.pushes[p].pc.Scan? && !t.pushes[p].pc.Return?
    ensures CanRun(t, steps) && NewlyAccepted(t, After(t, steps))
    decreases match t.pushes[p].pc case StoreSender(_) => 4 case StoreRecipient(_) => 3 case StoreValue(_) => 2
                                   case LoadHead(_) => 1 case StoreNext(_, _) => 6 case CasHead(_) => 5 case _ => 0
  {
    if t.pushes[p].pc.LoadHead? {
      var u;
      steps, u := Link(t, p, t.pushes[p].pc.k);
      assert u.pushes[p].pc == Return(true);
    } else {
      var u := Next(t, PushStep(p));
      OneMore(t, [], PushStep(p), u);
      if u.pushes[p].pc == Return(true) {
        steps := [] + [PushStep(p)];
      } else {
        var rest := SenderFinishes(u, p);
        RunConcat(t, [] + [PushStep(p)], rest);
        steps := [] + [PushStep(p)] + rest;
        var v := After(u, rest);
        var q :| 0 <= q < |v.pushes| && v.pushes[q].pc == Return(true) && (q < |u.pushes| ==> u.pushes[q].pc != Return(true));
        assert q < |t.pushes| ==> t.pushes[q].pc != Return(true);
      }
    }
  }

  lemma ListedFreed(t: State, msg: Msg) returns (steps: seq<Step>)
    requires Inv(t) && t.list != []
    ensures CanRun(t, steps) && NewlyAccepted(t, After(t, steps))
  {
    hide Linked, ListHolds, Legal, StackOf, StoredOk, RolesOk, ConsumerOk;
    steps := ConsumerFinishes(t);
    if After(t, steps).consumer.Ready? {
      var x := PopFirst(After(t, steps));
      RunConcat(t, steps, x);
      steps := steps + x;
    }
    var u := After(t, steps);
    assert Inv(u) by { RunKeepsInv(t, steps); }
    var y := ReleaseAndSend(u, msg);
    RunConcat(t, steps, y);
    steps := steps + y;
  }

  /** While one frame is not lost, some continuation accepts one more message. */
  lemma OneLeft(t: State, k: nat, msg: Msg) returns (steps: seq<Step>)
    requires Inv(t) && k < FRAMES && t.roles[k] != Leaked
    ensures CanRun(t, steps) && NewlyAccepted(t, After(t, steps))
  {
    hide Linked, ListHolds, Legal, StackOf, StoredOk, ConsumerOk;
    if t.roles[k].Free? {
      steps := PushAloneEnds(t, msg);
    } else if t.roles[k].OfSender? {
      assert Owns(t.pushes[t.roles[k].p].pc, k);
      steps := SenderFinishes(t, t.roles[k].p);
    } else if t.roles[k].OnList? {
      steps := ListedFreed(t, msg);
    } else {
      steps := ReleaseAndSend(t, msg);
    }
  }

  ghost predicate AcceptsAfter(t: State, more: seq<Step>) {
    CanRun(t, more) && NewlyAccepted(t, After(t, more))
  }

  /** After a run, whatever else happened in it, some push can still succeed if and only if fewer than FRAMES
      signals were dropped. */
  lemma LeaksExhaust(s: State, steps: seq<Step>)
    requires Init(s) && CanRun(s, steps)
    ensures (exists more :: AcceptsAfter(After(s, steps), more)) <==> Drops(steps) < FRAMES
  {
    hide Inv, Next, Enabled;
    var t := After(s, steps);
    LeaksAreDrops(s, steps);
    InitInv(s);
    RunKeepsInv(s, steps);
    RolesLength(t);
    AllLeaked(t.roles);
    if Drops(steps) < FRAMES {
      var k :| 0 <= k < FRAMES && !t.roles[k].Leaked?;
      var more := OneLeft(t, k, Msg(0, 0, 0));
      assert AcceptsAfter(t, more);
    } else {
      forall more | CanRun(t, more) ensures !NewlyAccepted(t, After(t, more)) {
        NoneAccepted(t, more);
      }
    }
  }

  /** And there is such a run: FRAMES times, one message sent, popped and dropped. */
  lemma LeaksHappen(s: State, b: Msg) returns (steps: seq<Step>)
    requires Init(s)
    ensures CanRun(s, steps) && Drops(steps) == FRAMES
    ensures forall k :: 0 <= k < FRAMES ==> k < |After(s, steps).roles| && After(s, steps).roles[k] == Leaked
  {
    steps := DropRounds(s, b, 0);
  }
}
