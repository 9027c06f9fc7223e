/** The pending-signal stack of a process (proc.c: push, pop, fix_tf): a fixed set of frames,
    claimed by compare-and-swap on `used`, and a list through `next` from `head`. Any number of
    senders push; the one consumer is the owning process. Every step is a single load, store or
    compare-and-swap of shared memory, and steps of all threads interleave freely.

    `list`, `roles` and `log` exist for the statements only: the frames on the list from the
    head, what each frame is in use for, and the operations in the order in which they took
    effect. */
module SignalStack {
  import opened Common

  const FRAMES := 10
  const NULL := -1

  datatype Msg = Msg(sender: int, recipient: int, value: int)

  datatype Frame = Frame(msg: Msg, used: bool, next: int)

  /** Where a sender is in push; k is the frame it has claimed. */
  datatype Pc =
    | Scan(i: nat)
    | StoreSender(k: nat)
    | StoreRecipient(k: nat)
    | StoreValue(k: nat)
    | LoadHead(k: nat)
    | StoreNext(k: nat, h: int)
    | CasHead(k: nat)
    | Return(ok: bool)

  datatype Push = Push(msg: Msg, pc: Pc)

  /** Where the consumer is in fix_tf: outside or about to load the head, in pop, with a popped
      frame (m is what was in it when it was popped), or reading it after releasing it. */
  datatype Consumer =
    | Ready
    | LoadedHead(k: nat)
    | LoadedNext(k: nat, n: int)
    | Popped(k: nat, m: Msg)
    | ReadingValue(k: nat, m: Msg)
    | ReadingSender(k: nat, m: Msg, value: int)
    | Delivered(m: Msg, sender: int, value: int)

  /** What a frame is in use for: it is free, claimed by a sender, on the list, held by the
      consumer, or was dropped by the consumer without being released. */
  datatype Role = Free | OfSender(p: nat) | OnList | OfConsumer | Leaked

  datatype Event = Pushed(m: Msg) | Took(m: Msg) | WasEmpty

  datatype State = State(
    frames: seq<Frame>,
    head: int,
    pushes: seq<Push>,
    consumer: Consumer,
    list: seq<nat>,
    roles: seq<Role>,
    log: seq<Event>)

  datatype Step =
    | Start(msg: Msg)
    | PushStep(p: nat)
    | PopLoadHead
    | PopLoadNext
    | PopCas
    | Release
    | Drop
    | ReadValue
    | ReadSender
    | Handled

  // ---- The steps -----------------------------------------------------------------------------

  predicate InRange(s: State) {
    && |s.frames| == FRAMES == |s.roles|
    && (forall p :: 0 <= p < |s.pushes| ==> PcInRange(s.pushes[p].pc))
    && (s.consumer.Ready? || s.consumer.Delivered? || s.consumer.k < FRAMES)
    && (s.head == NULL || 0 <= s.head < FRAMES)
  }

  predicate PcInRange(pc: Pc) {
    pc.Scan? || pc.Return? || pc.k < FRAMES
  }

  predicate Enabled(s: State, step: Step) {
    InRange(s) &&
    match step
    case Start(_) => true
    case PushStep(p) => p < |s.pushes| && !s.pushes[p].pc.Return?
    case PopLoadHead => s.consumer.Ready?
    case PopLoadNext => s.consumer.LoadedHead?
    case PopCas => s.consumer.LoadedNext?
    case Release => s.consumer.Popped?
    case Drop => s.consumer.Popped?
    case ReadValue => s.consumer.ReadingValue?
    case ReadSender => s.consumer.ReadingSender?
    case Handled => s.consumer.Delivered?
  }

  function SetPc(s: State, p: nat, pc: Pc): (t: State)
    requires p < |s.pushes|
  {
    s.(pushes := s.pushes[p := s.pushes[p].(pc := pc)])
  }

  function SetFrame(s: State, k: nat, f: Frame): (t: State)
    requires k < |s.frames|
  {
    s.(frames := s.frames[k := f])
  }

  function SetRole(s: State, k: nat, r: Role): (t: State)
    requires k < |s.roles|
  {
    s.(roles := s.roles[k := r])
  }

  function NextPush(s: State, p: nat): (t: State)
    requires InRange(s) && p < |s.pushes| && !s.pushes[p].pc.Return?
  {
    var m := s.pushes[p].msg;
    match s.pushes[p].pc
    case Scan(i) =>
      if i >= FRAMES then SetPc(s, p, Return(false))
      else if s.frames[i].used then SetPc(s, p, Scan(i + 1))
      else SetRole(SetPc(SetFrame(s, i, s.frames[i].(used := true)), p, StoreSender(i)), i, OfSender(p))
    case StoreSender(k) =>
      SetPc(SetFrame(s, k, s.frames[k].(msg := s.frames[k].msg.(sender := m.sender))), p, StoreRecipient(k))
    case StoreRecipient(k) =>
      SetPc(SetFrame(s, k, s.frames[k].(msg := s.frames[k].msg.(recipient := m.recipient))), p, StoreValue(k))
    case StoreValue(k) =>
      SetPc(SetFrame(s, k, s.frames[k].(msg := s.frames[k].msg.(value := m.value))), p, LoadHead(k))
    case LoadHead(k) =>
      SetPc(s, p, StoreNext(k, s.head))
    case StoreNext(k, h) =>
      SetPc(SetFrame(s, k, s.frames[k].(next := h)), p, CasHead(k))
    case CasHead(k) =>
      if s.head == s.frames[k].next
      then SetRole(SetPc(s.(head := k, list := [k] + s.list, log := s.log + [Pushed(m)]), p, Return(true)), k, OnList)
      else SetPc(s, p, LoadHead(k))
    case Return(_) => s
  }

  function Next(s: State, step: Step): (t: State)
    requires Enabled(s, step)
  {
    var c := s.consumer;
    match step
    case Start(msg) => s.(pushes := s.pushes + [Push(msg, Scan(0))])
    case PushStep(p) => NextPush(s, p)
    case PopLoadHead =>
      if s.head == NULL then s.(log := s.log + [WasEmpty]) else s.(consumer := LoadedHead(s.head))
    case PopLoadNext => s.(consumer := LoadedNext(c.k, s.frames[c.k].next))
    case PopCas =>
      if s.head == c.k
      then SetRole(s.(head := c.n, consumer := Popped(c.k, s.frames[c.k].msg),
                      list := if s.list == [] then [] else s.list[1..],
                      log := s.log + [Took(s.frames[c.k].msg)]), c.k, OfConsumer)
      else s.(consumer := Ready)
    case Release =>
      SetRole(SetFrame(s, c.k, s.frames[c.k].(used := false)), c.k, Free).(consumer := ReadingValue(c.k, c.m))
    case Drop => SetRole(s, c.k, Leaked).(consumer := Ready)
    case ReadValue => s.(consumer := ReadingSender(c.k, c.m, s.frames[c.k].msg.value))
    case ReadSender => s.(consumer := Delivered(c.m, s.frames[c.k].msg.sender, c.value))
    case Handled => s.(consumer := Ready)
  }

  /** As allocproc leaves it. */
  predicate Init(s: State) {
    && |s.frames| == FRAMES && (forall k :: 0 <= k < FRAMES ==> !s.frames[k].used)
    && s.head == NULL && s.pushes == [] && s.consumer == Ready
    && s.list == [] && |s.roles| == FRAMES && (forall k :: 0 <= k < FRAMES ==> s.roles[k] == Free) && s.log == []
  }

  predicate CanRun(s: State, steps: seq<Step>)
    decreases |steps|
  {
    steps == [] || (Enabled(s, steps[0]) && CanRun(Next(s, steps[0]), steps[1..]))
  }

  function After(s: State, steps: seq<Step>): (t: State)
    requires CanRun(s, steps)
    decreases |steps|
  {
    if steps == [] then s else After(Next(s, steps[0]), steps[1..])
  }

  // ---- The abstract stack --------------------------------------------------------------------

  function StackStep(st: seq<Msg>, e: Event): (r: seq<Msg>) {
    if e.Pushed? then [e.m] + st else if e.Took? && st != [] then st[1..] else st
  }

  /** The stack that results from the operations in the log. */
  function StackOf(log: seq<Event>): (st: seq<Msg>) {
    if log == [] then [] else StackStep(StackOf(log[..|log| - 1]), log[|log| - 1])
  }

  /** A pop takes the top of the stack, and finds nothing only when there is nothing. */
  predicate LegalAt(st: seq<Msg>, e: Event) {
    && (e.Took? ==> st != [] && e.m == st[0])
    && (e.WasEmpty? ==> st == [])
  }

  ghost predicate Legal(log: seq<Event>) {
    forall k :: 0 <= k < |log| ==> LegalAt(StackOf(log[..k]), log[k])
  }

  lemma AppendEvent(log: seq<Event>, e: Event)
    requires Legal(log) && LegalAt(StackOf(log), e)
    ensures Legal(log + [e]) && StackOf(log + [e]) == StackStep(StackOf(log), e)
  {
    var r := log + [e];
    assert r[..|log|] == log;
    forall k | 0 <= k < |r| ensures LegalAt(StackOf(r[..k]), r[k]) {
      assert k < |log| ==> r[..k] == log[..k];
    }
  }

  // ---- The invariant -------------------------------------------------------------------------

  /** Sender pc has claimed frame k and not yet linked it. */
  predicate Owns(pc: Pc, k: nat) {
    !pc.Scan? && !pc.Return? && pc.k == k
  }

  function HeadOf(list: seq<nat>): (h: int) {
    if list == [] then NULL else list[0]
  }

  /** `next` leads from each frame of the list to the one after it. */
  predicate Linked(frames: seq<Frame>, list: seq<nat>) {
    && (forall i :: 0 <= i < |list| ==> list[i] < |frames|)
    && (forall i :: 0 <= i < |list| ==> frames[list[i]].next == HeadOf(list[i + 1..]))
  }

  predicate ListHolds(frames: seq<Frame>, list: seq<nat>, st: seq<Msg>) {
    && |list| == |st|
    && (forall i :: 0 <= i < |list| ==> list[i] < |frames|)
    && (forall i :: 0 <= i < |list| ==> frames[list[i]].msg == st[i])
  }

  /** The parts of its message that a sender has stored are in its frame. */
  predicate StoredOk(frames: seq<Frame>, m: Msg, pc: Pc) {
    !pc.Scan? && !pc.Return? && pc.k < |frames| ==>
      var f := frames[pc.k].msg;
      && (!pc.StoreSender? ==> f.sender == m.sender)
      && (!pc.StoreSender? && !pc.StoreRecipient? ==> f.recipient == m.recipient)
      && (!pc.StoreSender? && !pc.StoreRecipient? && !pc.StoreValue? ==> f.value == m.value)
  }

  predicate UsedOk(frames: seq<Frame>, roles: seq<Role>) {
    |frames| == |roles| == FRAMES && forall k :: 0 <= k < FRAMES ==> (frames[k].used <==> roles[k] != Free)
  }

  predicate ListRoles(list: seq<nat>, roles: seq<Role>) {
    && Distinct(list)
    && (forall i :: 0 <= i < |list| ==> list[i] < |roles| && roles[list[i]] == OnList)
    && (forall k: nat :: k < |roles| && roles[k] == OnList ==> k in list)
  }

  predicate SenderRoles(pushes: seq<Push>, roles: seq<Role>) {
    && (forall p: nat, k: nat :: p < |pushes| && k < |roles| ==> (Owns(pushes[p].pc, k) <==> roles[k] == OfSender(p)))
    && (forall k :: 0 <= k < |roles| && roles[k].OfSender? ==> roles[k].p < |pushes|)
  }

  predicate ConsumerRole(c: Consumer, roles: seq<Role>) {
    forall k: nat :: k < |roles| ==> (c.Popped? && c.k == k <==> roles[k] == OfConsumer)
  }

  /** Every frame has exactly one role, and is marked used exactly when the role is not Free. */
  predicate RolesOk(s: State) {
    && UsedOk(s.frames, s.roles) && ListRoles(s.list, s.roles)
    && SenderRoles(s.pushes, s.roles) && ConsumerRole(s.consumer, s.roles)
  }

  /** What the consumer has loaded in pop is still right: only it removes frames. A frame it has
      released keeps its message for as long as nobody claims it. */
  predicate ConsumerOk(s: State)
    requires InRange(s)
  {
    var c := s.consumer;
    && (c.LoadedHead? || c.LoadedNext? ==> s.roles[c.k] == OnList)
    && (c.LoadedNext? ==> c.n == s.frames[c.k].next)
    && (c.Popped? ==> s.frames[c.k].msg == c.m)
    && (c.ReadingValue? && s.roles[c.k] == Free ==> s.frames[c.k].msg == c.m)
    && (c.ReadingSender? && s.roles[c.k] == Free ==> s.frames[c.k].msg == c.m && c.value == c.m.value)
  }

  ghost predicate Inv(s: State) {
    && InRange(s)
    && RolesOk(s)
    && s.head == HeadOf(s.list) && Linked(s.frames, s.list)
    && Legal(s.log) && ListHolds(s.frames, s.list, StackOf(s.log))
    && (forall p :: 0 <= p < |s.pushes| ==> StoredOk(s.frames, s.pushes[p].msg, s.pushes[p].pc))
    && ConsumerOk(s)
  }
}
