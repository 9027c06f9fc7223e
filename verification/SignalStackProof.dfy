/** Every interleaving of the senders and the consumer keeps the stack a stack. */
module SignalStackProof {
  import opened SignalStack

  lemma InitInv(s: State)
    requires Init(s)
    ensures Inv(s)
  {
  }

  lemma StartKeeps(s: State, msg: Msg)
    requires Inv(s)
    ensures Inv(Next(s, Start(msg)))
  {
  }

  // ---- Senders -------------------------------------------------------------------------------

  lemma ClaimRole(pushes: seq<Push>, roles: seq<Role>, p: nat, k: nat, pc: Pc)
    requires SenderRoles(pushes, roles) && p < |pushes| && pushes[p].pc.Scan?
    requires k < |roles| && roles[k] == Free && Owns(pc, k)
    ensures SenderRoles(pushes[p := pushes[p].(pc := pc)], roles[k := OfSender(p)])
  {
  }

  lemma UnclaimRole(pushes: seq<Push>, roles: seq<Role>, p: nat, k: nat, pc: Pc, r: Role)
    requires SenderRoles(pushes, roles) && p < |pushes| && pc.Return?
    requires k < |roles| && Owns(pushes[p].pc, k) && !r.OfSender?
    ensures SenderRoles(pushes[p := pushes[p].(pc := pc)], roles[k := r])
  {
    assert roles[k] == OfSender(p);
  }

  lemma MissKeeps(s: State, p: nat, pc: Pc)
    requires Inv(s) && p < |s.pushes| && s.pushes[p].pc.Scan? && (pc.Scan? || pc.Return?)
    ensures Inv(SetPc(s, p, pc))
  {
    var t := SetPc(s, p, pc);
    assert SenderRoles(t.pushes, t.roles);
  }

  // Parts of the invariant under a change of one frame and its role.

  lemma ListStays(frames: seq<Frame>, list: seq<nat>, st: seq<Msg>, k: nat, f: Frame)
    requires Linked(frames, list) && ListHolds(frames, list, st) && k < |frames|
    requires k !in list || (f.next == frames[k].next && f.msg == frames[k].msg)
    ensures Linked(frames[k := f], list) && ListHolds(frames[k := f], list, st)
  {
    forall j | 0 <= j < |list| ensures frames[k := f][list[j]].next == frames[list[j]].next && frames[k := f][list[j]].msg == frames[list[j]].msg {
      assert list[j] in list;
    }
  }

  lemma ListRolesStay(list: seq<nat>, roles: seq<Role>, k: nat, r: Role)
    requires ListRoles(list, roles) && k < |roles| && roles[k] != OnList && r != OnList
    ensures ListRoles(list, roles[k := r]) && k !in list
  {
  }

  lemma UsedStays(frames: seq<Frame>, roles: seq<Role>, k: nat, f: Frame, r: Role)
    requires UsedOk(frames, roles) && k < FRAMES && (f.used <==> r != Free)
    ensures UsedOk(frames[k := f], roles[k := r])
  {
  }

  lemma ConsumerRoleStays(c: Consumer, roles: seq<Role>, k: nat, r: Role)
    requires ConsumerRole(c, roles) && k < |roles| && roles[k] != OfConsumer && r != OfConsumer
    ensures ConsumerRole(c, roles[k := r])
  {
  }

  /** A frame that no sender owns, or whose message stays, may change. */
  lemma StoredStays(pushes: seq<Push>, frames: seq<Frame>, k: nat, f: Frame, q: nat)
    requires q < |pushes| && k < |frames| && StoredOk(frames, pushes[q].msg, pushes[q].pc)
    requires f.msg == frames[k].msg || !Owns(pushes[q].pc, k)
    ensures StoredOk(frames[k := f], pushes[q].msg, pushes[q].pc)
  {
  }

  lemma ClaimKeeps(s: State, p: nat)
    requires Inv(s) && p < |s.pushes| && s.pushes[p].pc.Scan?
    requires s.pushes[p].pc.i < FRAMES && !s.frames[s.pushes[p].pc.i].used
    ensures Inv(NextPush(s, p))
  {
    hide Legal, StackOf, Linked, ListHolds, ListRoles, SenderRoles, ConsumerRole, StoredOk;
    var i := s.pushes[p].pc.i;
    var t, f := NextPush(s, p), s.frames[i].(used := true);
    assert s.roles[i] == Free;
    ClaimRole(s.pushes, s.roles, p, i, StoreSender(i));
    ListStays(s.frames, s.list, StackOf(s.log), i, f);
    ListRolesStay(s.list, s.roles, i, OfSender(p));
    UsedStays(s.frames, s.roles, i, f, OfSender(p));
    ConsumerRoleStays(s.consumer, s.roles, i, OfSender(p));
    forall q | 0 <= q < |t.pushes| ensures StoredOk(t.frames, t.pushes[q].msg, t.pushes[q].pc) {
      if q == p { StoredNothing(t.frames, t.pushes[q].msg, i); } else { StoredStays(s.pushes, s.frames, i, f, q); }
    }
    assert ConsumerOk(t);
  }

  lemma StoredNothing(frames: seq<Frame>, m: Msg, k: nat)
    ensures StoredOk(frames, m, StoreSender(k))
  {
  }

  lemma ScanKeeps(s: State, p: nat)
    requires Inv(s) && p < |s.pushes| && s.pushes[p].pc.Scan?
    ensures Inv(NextPush(s, p))
  {
    var i := s.pushes[p].pc.i;
    if i >= FRAMES {
      MissKeeps(s, p, Return(false));
    } else if s.frames[i].used {
      MissKeeps(s, p, Scan(i + 1));
    } else {
      ClaimKeeps(s, p);
    }
  }

  /** A sender storing into the frame it has claimed disturbs nobody. */
  lemma StoreKeeps(s: State, p: nat, f: Frame, pc: Pc)
    requires Inv(s) && p < |s.pushes|
    requires var old_ := s.pushes[p].pc; !old_.Scan? && !old_.Return? && Owns(pc, old_.k)
    requires f.used
    requires StoredOk(s.frames[s.pushes[p].pc.k := f], s.pushes[p].msg, pc)
    ensures Inv(SetPc(SetFrame(s, s.pushes[p].pc.k, f), p, pc))
  {
    hide Legal, StackOf, Linked, ListHolds, ListRoles, StoredOk;
    var k := s.pushes[p].pc.k;
    var t := SetPc(SetFrame(s, k, f), p, pc);
    assert Owns(s.pushes[p].pc, k) && s.roles[k] == OfSender(p);
    ListRolesStay(s.list, s.roles, k, OfSender(p));
    assert s.roles[k := OfSender(p)] == s.roles;
    ListStays(s.frames, s.list, StackOf(s.log), k, f);
    UsedStays(s.frames, s.roles, k, f, OfSender(p));
    forall q | 0 <= q < |t.pushes| ensures StoredOk(t.frames, t.pushes[q].msg, t.pushes[q].pc) {
      if q != p { StoredStays(s.pushes, s.frames, k, f, q); }
    }
    assert SenderRoles(t.pushes, t.roles);
    assert ConsumerOk(t);
  }

  lemma LinkFirst(frames: seq<Frame>, list: seq<nat>, st: seq<Msg>, k: nat)
    requires Linked(frames, list) && ListHolds(frames, list, st) && k < |frames|
    requires frames[k].next == HeadOf(list)
    ensures Linked(frames, [k] + list) && ListHolds(frames, [k] + list, [frames[k].msg] + st)
  {
    var r := [k] + list;
    assert r[1..] == list;
    forall j | 0 <= j < |r| ensures frames[r[j]].next == HeadOf(r[j + 1..]) {
      if j > 0 { assert r[j + 1..] == list[j..]; }
    }
  }

  lemma LinkRole(list: seq<nat>, roles: seq<Role>, k: nat)
    requires ListRoles(list, roles) && k < |roles| && roles[k] != OnList
    ensures ListRoles([k] + list, roles[k := OnList]) && k !in list
  {
  }

  lemma UnlinkRole(list: seq<nat>, roles: seq<Role>, r: Role)
    requires ListRoles(list, roles) && list != [] && r != OnList
    ensures ListRoles(list[1..], roles[list[0] := r])
  {
    assert list == [list[0]] + list[1..];
  }

  lemma CasRoles(s: State, p: nat)
    requires Inv(s) && p < |s.pushes| && s.pushes[p].pc.CasHead? && s.head == s.frames[s.pushes[p].pc.k].next
    ensures InRange(NextPush(s, p)) && RolesOk(NextPush(s, p))
    ensures s.pushes[p].pc.k !in s.list && s.frames[s.pushes[p].pc.k].msg == s.pushes[p].msg
  {
    var k := s.pushes[p].pc.k;
    assert Owns(s.pushes[p].pc, k);
    assert s.roles[k] == OfSender(p);
    LinkRole(s.list, s.roles, k);
    UnclaimRole(s.pushes, s.roles, p, k, Return(true), OnList);
  }

  lemma CasKeeps(s: State, p: nat)
    requires Inv(s) && p < |s.pushes| && s.pushes[p].pc.CasHead?
    ensures Inv(NextPush(s, p))
  {
    var k := s.pushes[p].pc.k;
    if s.head == s.frames[k].next {
      var t := NextPush(s, p);
      CasRoles(s, p);
      assert ConsumerOk(t);
      assert forall q :: 0 <= q < |t.pushes| ==> StoredOk(t.frames, t.pushes[q].msg, t.pushes[q].pc);
      AppendEvent(s.log, Pushed(s.pushes[p].msg));
      LinkFirst(s.frames, s.list, StackOf(s.log), k);
    } else {
      assert Owns(s.pushes[p].pc, k);
      assert SetFrame(s, k, s.frames[k]) == s;
      StoreKeeps(s, p, s.frames[k], LoadHead(k));
    }
  }

  lemma PushKeeps(s: State, p: nat)
    requires Inv(s) && p < |s.pushes| && !s.pushes[p].pc.Return?
    ensures Inv(NextPush(s, p))
  {
    hide Legal, StackOf, Linked, ListHolds, ConsumerOk;
    var m := s.pushes[p].msg;
    if !s.pushes[p].pc.Scan? {
      var k := s.pushes[p].pc.k;
      assert Owns(s.pushes[p].pc, k) && s.roles[k] == OfSender(p) && s.frames[k].used;
      assert s.frames[k := s.frames[k]] == s.frames;
    }
    match s.pushes[p].pc
    case Scan(_) => ScanKeeps(s, p);
    case StoreSender(k) =>
      StoreKeeps(s, p, s.frames[k].(used := true, msg := s.frames[k].msg.(sender := m.sender)), StoreRecipient(k));
    case StoreRecipient(k) =>
      StoreKeeps(s, p, s.frames[k].(used := true, msg := s.frames[k].msg.(recipient := m.recipient)), StoreValue(k));
    case StoreValue(k) =>
      StoreKeeps(s, p, s.frames[k].(used := true, msg := s.frames[k].msg.(value := m.value)), LoadHead(k));
    case LoadHead(k) =>
      StoreKeeps(s, p, s.frames[k].(used := true), StoreNext(k, s.head));
    case StoreNext(k, h) =>
      StoreKeeps(s, p, s.frames[k].(used := true, next := h), CasHead(k));
    case CasHead(_) => CasKeeps(s, p);
  }

  // ---- The consumer --------------------------------------------------------------------------

  lemma LoadKeeps(s: State)
    requires Inv(s)
    ensures Enabled(s, PopLoadHead) ==> Inv(Next(s, PopLoadHead))
    ensures Enabled(s, PopLoadNext) ==> Inv(Next(s, PopLoadNext))
  {
    if s.head == NULL {
      AppendEvent(s.log, WasEmpty);
    } else {
      assert s.list[0] in s.list;
    }
  }

  lemma UnlinkFirst(frames: seq<Frame>, list: seq<nat>, st: seq<Msg>)
    requires Linked(frames, list) && ListHolds(frames, list, st) && list != []
    ensures Linked(frames, list[1..]) && ListHolds(frames, list[1..], st[1..])
    ensures frames[list[0]].next == HeadOf(list[1..]) && frames[list[0]].msg == st[0]
  {
    var r := list[1..];
    forall j | 0 <= j < |r| ensures frames[r[j]].next == HeadOf(r[j + 1..]) {
      assert r[j + 1..] == list[j + 2..];
    }
  }

  lemma PopCasKeeps(s: State)
    requires Inv(s) && Enabled(s, PopCas)
    ensures Inv(Next(s, PopCas))
  {
    var k := s.consumer.k;
    if s.head == k {
      assert s.list != [] && s.list[0] == k;
      UnlinkFirst(s.frames, s.list, StackOf(s.log));
      AppendEvent(s.log, Took(s.frames[k].msg));
      UnlinkRole(s.list, s.roles, OfConsumer);
    }
  }

  lemma ReleaseKeeps(s: State)
    requires Inv(s) && Enabled(s, Release)
    ensures Inv(Next(s, Release))
  {
    hide Legal, StackOf, Linked, ListHolds, ListRoles, StoredOk;
    var k := s.consumer.k;
    var t, f := Next(s, Release), s.frames[k].(used := false);
    assert s.roles[k] == OfConsumer;
    ListRolesStay(s.list, s.roles, k, Free);
    ListStays(s.frames, s.list, StackOf(s.log), k, f);
    UsedStays(s.frames, s.roles, k, f, Free);
    forall q | 0 <= q < |t.pushes| ensures StoredOk(t.frames, t.pushes[q].msg, t.pushes[q].pc) {
      StoredStays(s.pushes, s.frames, k, f, q);
    }
    assert SenderRoles(t.pushes, t.roles);
    assert ConsumerRole(t.consumer, t.roles);
  }

  /** The consumer's steps after a pop that touch no shared state. */
  lemma HandleKeeps(s: State, step: Step)
    requires Inv(s) && Enabled(s, step) && (step.Drop? || step.ReadValue? || step.ReadSender? || step.Handled?)
    ensures Inv(Next(s, step))
  {
    hide Legal, StackOf, Linked, ListHolds, StoredOk;
  }

  lemma StepKeepsInv(s: State, step: Step)
    requires Inv(s) && Enabled(s, step)
    ensures Inv(Next(s, step))
  {
    hide Inv;
    match step
    case Start(msg) => StartKeeps(s, msg);
    case PushStep(p) => PushKeeps(s, p);
    case PopLoadHead => LoadKeeps(s);
    case PopLoadNext => LoadKeeps(s);
    case PopCas => PopCasKeeps(s);
    case Release => ReleaseKeeps(s);
    case Drop => HandleKeeps(s, step);
    case ReadValue => HandleKeeps(s, step);
    case ReadSender => HandleKeeps(s, step);
    case Handled => HandleKeeps(s, step);
  }

  lemma {:induction false} RunKeepsInv(s: State, steps: seq<Step>)
    requires Inv(s) && CanRun(s, steps)
    ensures Inv(After(s, steps))
    decreases |steps|
  {
    if steps != [] {
      StepKeepsInv(s, steps[0]);
      RunKeepsInv(Next(s, steps[0]), steps[1..]);
    }
  }
}
