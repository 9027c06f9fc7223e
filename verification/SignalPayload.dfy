/** Reading a popped frame after releasing it (proc.c: fix_tf): when the fields read are still those of the
    popped message. */
module SignalPayload {
  import opened SignalStack
  import opened SignalStackProof

  predicate Reading(c: Consumer) {
    c.ReadingValue? || c.ReadingSender?
  }

  /** What is in the frame that the consumer has released and still reads: a sender that has claimed it
      since then has stored its fields in order. Only the consumer itself could take it from the list. */
  predicate ReleasedOk(s: State)
    requires InRange(s)
  {
    Reading(s.consumer) ==>
      var k, m := s.consumer.k, s.consumer.m;
      var f := s.frames[k].msg;
      match s.roles[k]
      case Free => f == m
      case OfSender(p) =>
        && p < |s.pushes|
        && var pc := s.pushes[p].pc;
           && (pc.StoreSender? ==> f.sender == m.sender)
           && (pc.StoreSender? || pc.StoreRecipient? || pc.StoreValue? ==> f.value == m.value)
      case OnList => true
      case OfConsumer => false
      case Leaked => false
  }

  lemma PushReleased(s: State, p: nat)
    requires Inv(s) && ReleasedOk(s) && Enabled(s, PushStep(p)) && Reading(s.consumer) && InRange(Next(s, PushStep(p)))
    ensures ReleasedOk(Next(s, PushStep(p)))
  {
    hide Linked, ListHolds, Legal, StackOf, HeadOf, StoredOk, ConsumerOk;
    var k, pc := s.consumer.k, s.pushes[p].pc;
    assert Owns(pc, k) <==> s.roles[k] == OfSender(p);
    if !pc.Scan? { assert Owns(pc, pc.k) && s.roles[pc.k] == OfSender(p); }
  }

  lemma ConsumerReleased(s: State, step: Step)
    requires Inv(s) && ReleasedOk(s) && Enabled(s, step) && !step.PushStep?
    ensures InRange(Next(s, step)) ==> ReleasedOk(Next(s, step))
  {
    hide Linked, ListHolds, Legal, StackOf, RolesOk, StoredOk, HeadOf;
  }

  lemma ReleasedStep(s: State, step: Step)
    requires Inv(s) && ReleasedOk(s) && Enabled(s, step)
    ensures InRange(Next(s, step)) && ReleasedOk(Next(s, step))
  {
    hide Inv, ReleasedOk;
    StepKeepsInv(s, step);
    InvInRange(Next(s, step));
    if !step.PushStep? {
      ConsumerReleased(s, step);
    } else if Reading(s.consumer) {
      PushReleased(s, step.p);
    } else {
      OthersReleased(s, step.p);
    }
  }

  lemma OthersReleased(s: State, p: nat)
    requires Enabled(s, PushStep(p)) && !Reading(s.consumer) && InRange(Next(s, PushStep(p)))
    ensures ReleasedOk(Next(s, PushStep(p)))
  {
  }

  lemma {:induction false} RunReleased(s: State, steps: seq<Step>)
    requires Inv(s) && ReleasedOk(s) && CanRun(s, steps)
    ensures Inv(After(s, steps)) && ReleasedOk(After(s, steps))
    decreases |steps|
  {
    hide Inv, ReleasedOk, Enabled;
    if steps != [] {
      StepKeepsInv(s, steps[0]);
      ReleasedStep(s, steps[0]);
      RunReleased(Next(s, steps[0]), steps[1..]);
    }
  }

  /** The message on the list in frame k. */
  predicate Listed(s: State, k: nat, i: nat) {
    i < |s.list| && s.list[i] == k && i < |StackOf(s.log)|
  }

  /** The released frame k still has the value of the message m that was popped from it: it is unused; or
      its next sender has not got to store the value, or stores the same; or it is back on the list with a
      message of the same value. */
  ghost predicate ValueKept(s: State, k: nat, m: Msg) {
    k < |s.roles| &&
    match s.roles[k]
    case Free => true
    case OfSender(p) =>
      && p < |s.pushes|
      && var pc := s.pushes[p].pc;
         pc.StoreSender? || pc.StoreRecipient? || pc.StoreValue? || s.pushes[p].msg.value == m.value
    case OnList => exists i: nat :: Listed(s, k, i) && StackOf(s.log)[i].value == m.value
    case OfConsumer => false
    case Leaked => false
  }

  /** It still has the sender: the sender is the first field that its next user stores. */
  ghost predicate SenderKept(s: State, k: nat, m: Msg) {
    k < |s.roles| &&
    match s.roles[k]
    case Free => true
    case OfSender(p) => p < |s.pushes| && (s.pushes[p].pc.StoreSender? || s.pushes[p].msg.sender == m.sender)
    case OnList => exists i: nat :: Listed(s, k, i) && StackOf(s.log)[i].sender == m.sender
    case OfConsumer => false
    case Leaked => false
  }

  lemma KeptExactly(s: State)
    requires Inv(s) && ReleasedOk(s) && Reading(s.consumer)
    ensures var k, m := s.consumer.k, s.consumer.m;
            && (s.frames[k].msg.value == m.value <==> ValueKept(s, k, m))
            && (s.frames[k].msg.sender == m.sender <==> SenderKept(s, k, m))
  {
    hide Linked, Legal, StackOf;
    var k := s.consumer.k;
    if s.roles[k].OfSender? {
      var p := s.roles[k].p;
      assert Owns(s.pushes[p].pc, k);
      assert StoredOk(s.frames, s.pushes[p].msg, s.pushes[p].pc);
    } else if s.roles[k].OnList? {
      var i :| 0 <= i < |s.list| && s.list[i] == k;
      assert Listed(s, k, i) && s.frames[k].msg == StackOf(s.log)[i];
      assert forall j: nat :: Listed(s, k, j) ==> j == i;
    }
  }

  /** Up to its release the popped frame holds the popped message; each field read after the release is the
      popped one if and only if it has been kept. */
  lemma PayloadStable(s: State, steps: seq<Step>)
    requires Init(s) && CanRun(s, steps)
    ensures var t := After(s, steps); var c := t.consumer;
            && InRange(t)
            && (c.Popped? ==> t.frames[c.k].used && t.frames[c.k].msg == c.m)
            && (c.ReadingValue? ==> (Next(t, ReadValue).consumer.value == c.m.value <==> ValueKept(t, c.k, c.m)))
            && (c.ReadingSender? ==> (Next(t, ReadSender).consumer.sender == c.m.sender <==> SenderKept(t, c.k, c.m)))
  {
    InitInv(s);
    RunReleased(s, steps);
    var t := After(s, steps);
    if Reading(t.consumer) { KeptExactly(t); }
  }

  predicate OfSenders(steps: seq<Step>) {
    forall i :: 0 <= i < |steps| ==> steps[i].Start? || steps[i].PushStep?
  }

  lemma {:induction false} SendersLeaveConsumer(s: State, steps: seq<Step>)
    requires CanRun(s, steps) && OfSenders(steps)
    ensures After(s, steps).consumer == s.consumer
    decreases |steps|
  {
    if steps != [] {
      assert steps[0].Start? || steps[0].PushStep?;
      assert OfSenders(steps[1..]);
      SendersLeaveConsumer(Next(s, steps[0]), steps[1..]);
    }
  }

  /** The whole delivery. After any run that released a frame, with any steps of senders between the two
      reads: what is delivered is the popped message if and only if its value was kept until the first read
      and its sender until the second. */
  lemma DeliveredRight(s: State, before: seq<Step>, between: seq<Step>)
    requires Init(s) && CanRun(s, before) && After(s, before).consumer.ReadingValue? && OfSenders(between)
    requires Enabled(After(s, before), ReadValue) && CanRun(Next(After(s, before), ReadValue), between)
    ensures var t := After(s, before);
            var u := After(Next(t, ReadValue), between);
            var k, m := t.consumer.k, t.consumer.m;
            && Enabled(u, ReadSender)
            && (Next(u, ReadSender).consumer == Delivered(m, m.sender, m.value) <==>
                ValueKept(t, k, m) && SenderKept(u, k, m))
  {
    hide ValueKept, SenderKept, Inv, ReleasedOk;
    InitInv(s);
    assert ReleasedOk(s) by { InitReleased(s); }
    RunReleased(s, before);
    var t := After(s, before);
    InvInRange(t);
    KeptExactly(t);
    StepKeepsInv(t, ReadValue);
    ReleasedStep(t, ReadValue);
    var v := Next(t, ReadValue);
    SendersLeaveConsumer(v, between);
    RunReleased(v, between);
    InvInRange(After(v, between));
    KeptExactly(After(v, between));
  }

  lemma InvInRange(s: State)
    requires Inv(s)
    ensures InRange(s)
  {
  }

  lemma InitReleased(s: State)
    requires Init(s)
    ensures InRange(s) && ReleasedOk(s)
  {
  }
}
