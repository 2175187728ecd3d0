/**
 The executor runs the tool calls of one assistant message. Contiguous runs of
 parallel-safe calls are awaited together; every other call has the floor alone.
 */
module Execution {
  import opened Prelude
  import opened Messages

  // ----- Permissions -----

  datatype Mode = BypassPermissions | Plan | AcceptEdits | Default

  datatype PermissionAnswer = Allow | Deny | AllowAlwaysForTool

  predicate IsMutating(name: ToolName) {
    match name
    case Write | Edit | NotebookEdit | Bash | WebFetch | WebSearch | MemoryWrite => true
    case _ => false
  }

  predicate IsFileMutator(name: ToolName) {
    name.Write? || name.Edit? || name.NotebookEdit?
  }

  predicate IsParallelSafe(name: ToolName) {
    match name
    case Read | Glob | Grep | MemoryRead | WebFetch | WebSearch => true
    case _ => false
  }

  /** Why a call is not carried out by its tool, or what the tool said. */
  datatype Raw =
    | PolicyBlocked
    | ArgumentBlocked(pattern: string)
    | ModeRefused(mode: Mode)
    | UserDenied
    | UnknownTool
    | ToolError(message: string)
    | Output(text: string)

  datatype Verdict =
    | Rejected(why: Raw)  // organisation policy: nothing more happens for this call
    | Refused(why: Raw)
    | Allowed

  /** The static permission table. */
  function DecideByMode(mode: Mode, name: ToolName): Verdict {
    match mode
    case BypassPermissions => Allowed
    case Plan => if IsMutating(name) then Refused(ModeRefused(mode)) else Allowed
    case AcceptEdits => if !IsMutating(name) || IsFileMutator(name) then Allowed else Refused(ModeRefused(mode))
    case Default => if IsMutating(name) then Refused(ModeRefused(mode)) else Allowed
  }

  // ----- The environment and the state -----

  /** What tools read and write: the file system, the network, the memory store. */
  type World = map<string, string>

  datatype Note = Note(body: string)

  /**
   Everything the executor calls and does not own. `answer` gives the user's reply to the
   n-th permission question, `render` the text of a result (formatting, recovery header and
   truncation).
   */
  datatype Config = Config(
    mode: Mode,
    blocklist: set<ToolName>,
    argumentFilter: RecordedToolUse -> Option<string>,
    answer: Option<(nat, RecordedToolUse) -> PermissionAnswer>,
    preHook: RecordedToolUse -> seq<Note>,
    postHook: (RecordedToolUse, string, bool) -> seq<Note>,
    registered: ToolName -> bool,
    tool: (RecordedToolUse, World) -> (World, Raw),
    render: (RecordedToolUse, Raw) -> string,
    readonlyBash: Json -> bool,
    parallelDisabled: bool)

  /** The permission part of the state: the always-allow set and the number of questions asked. */
  datatype Gate = Gate(always: set<ToolName>, asked: nat)

  datatype State = State(world: World, gate: Gate, reminders: seq<Note>)

  predicate CanRunParallel(cfg: Config, tu: RecordedToolUse) {
    IsParallelSafe(tu.name) || (tu.name.Bash? && cfg.readonlyBash(tu.input))
  }

  /** The decision prefix of a call. It contains no await. */
  function Decide(cfg: Config, gate: Gate, tu: RecordedToolUse): (Gate, Verdict) {
    if tu.name in cfg.blocklist then (gate, Rejected(PolicyBlocked))
    else if cfg.argumentFilter(tu).Some? then (gate, Rejected(ArgumentBlocked(cfg.argumentFilter(tu).value)))
    else
      var decision := DecideByMode(cfg.mode, tu.name);
      if decision.Refused? && cfg.mode.Default? && IsMutating(tu.name) then
        if tu.name in gate.always then (gate, Allowed)
        else if cfg.answer.Some? then
          var asked := gate.(asked := gate.asked + 1);
          match cfg.answer.value(gate.asked, tu)
          case Allow => (asked, Allowed)
          case AllowAlwaysForTool => (asked.(always := gate.always + {tu.name}), Allowed)
          case Deny => (asked, Refused(UserDenied))
        else (gate, decision)
      else (gate, decision)
  }

  /** Dispatch: only an allowed call of a registered tool touches the world. */
  function Attempt(cfg: Config, w: World, tu: RecordedToolUse, v: Verdict): (World, Raw)
    requires !v.Rejected?
  {
    if v.Refused? then (w, v.why)
    else if cfg.registered(tu.name) then cfg.tool(tu, w)
    else (w, UnknownTool)
  }

  function MakeResult(cfg: Config, tu: RecordedToolUse, raw: Raw): RecordedToolResult {
    RecordedToolResult(tu.id, cfg.render(tu, raw), !raw.Output?)
  }

  function PreNotes(cfg: Config, tu: RecordedToolUse, v: Verdict): seq<Note> {
    if v.Allowed? then cfg.preHook(tu) else []
  }

  function PostNotes(cfg: Config, tu: RecordedToolUse, raw: Raw): seq<Note> {
    cfg.postHook(tu, cfg.render(tu, raw), !raw.Output?)
  }

  // ----- The sequential reading: one call after the other -----

  function RunOne(cfg: Config, st: State, tu: RecordedToolUse): (State, RecordedToolResult) {
    var (gate, v) := Decide(cfg, st.gate, tu);
    if v.Rejected? then (st.(gate := gate), MakeResult(cfg, tu, v.why))
    else
      var (world, raw) := Attempt(cfg, st.world, tu, v);
      (State(world, gate, st.reminders + PreNotes(cfg, tu, v) + PostNotes(cfg, tu, raw)), MakeResult(cfg, tu, raw))
  }

  /** The state after the first `n` calls, in order. */
  function After(cfg: Config, st: State, uses: seq<RecordedToolUse>, n: nat): State
    requires n <= |uses|
  {
    if n == 0 then st else RunOne(cfg, After(cfg, st, uses, n - 1), uses[n - 1]).0
  }

  /** The call is awaited together with another: a neighbor is parallel-safe too. */
  predicate IsBatched(cfg: Config, uses: seq<RecordedToolUse>, k: nat)
    requires k < |uses|
  {
    && !cfg.parallelDisabled && CanRunParallel(cfg, uses[k])
    && ((k > 0 && CanRunParallel(cfg, uses[k - 1])) || (k + 1 < |uses| && CanRunParallel(cfg, uses[k + 1])))
  }

  /**
   The premise under which calls are run together: taken one after the other, none of those awaited with
   another would change the world.
   */
  ghost predicate BatchedOnlyRead(cfg: Config, st: State, uses: seq<RecordedToolUse>) {
    forall k :: 0 <= k < |uses| && IsBatched(cfg, uses, k) ==> LeavesWorld(cfg, st, uses, k)
  }

  predicate LeavesWorld(cfg: Config, st: State, uses: seq<RecordedToolUse>, k: nat)
    requires k < |uses|
  {
    After(cfg, st, uses, k + 1).world == After(cfg, st, uses, k).world
  }

  function ResultOf(cfg: Config, st: State, uses: seq<RecordedToolUse>, k: nat): RecordedToolResult
    requires k < |uses|
  {
    RunOne(cfg, After(cfg, st, uses, k), uses[k]).1
  }

  function SequentialResults(cfg: Config, st: State, uses: seq<RecordedToolUse>,
                             n: nat): (results: seq<RecordedToolResult>)
    requires n <= |uses|
    ensures |results| == n
    ensures forall k :: 0 <= k < n ==> results[k] == ResultOf(cfg, st, uses, k)
  {
    if n == 0 then [] else SequentialResults(cfg, st, uses, n - 1) + [ResultOf(cfg, st, uses, n - 1)]
  }

  /** Results answer the calls one for one, in the model's order. */
  lemma ResultsCarryIds(cfg: Config, st: State, uses: seq<RecordedToolUse>)
    ensures var results := SequentialResults(cfg, st, uses, |uses|);
            |results| == |uses| && forall k :: 0 <= k < |uses| ==> results[k].toolUseId == uses[k].id
  {
    forall k | 0 <= k < |uses|
      ensures ResultOf(cfg, st, uses, k).toolUseId == uses[k].id
    {
    }
  }

  // ----- What the permissions guarantee over a whole run -----

  /** The user would answer the question raised by call `k` with `reply`. */
  ghost predicate UserSays(cfg: Config, st: State, uses: seq<RecordedToolUse>, k: nat, reply: PermissionAnswer)
    requires k < |uses|
  {
    cfg.answer.Some? && cfg.answer.value(After(cfg, st, uses, k).gate.asked, uses[k]) == reply
  }

  /** The user has allowed tool `name` for good at one of the first `n` calls. */
  ghost predicate Granted(cfg: Config, st: State, uses: seq<RecordedToolUse>, n: nat, name: ToolName)
    requires n <= |uses|
  {
    exists j :: 0 <= j < n && uses[j].name == name && UserSays(cfg, st, uses, j, AllowAlwaysForTool)
  }

  /** The always-allow set grows by the user's word alone. */
  lemma {:induction false} AlwaysIsGranted(cfg: Config, st: State, uses: seq<RecordedToolUse>, n: nat, name: ToolName)
    requires n <= |uses| && name in After(cfg, st, uses, n).gate.always
    ensures name in st.gate.always || Granted(cfg, st, uses, n, name)
  {
    if n > 0 {
      if name in After(cfg, st, uses, n - 1).gate.always {
        AlwaysIsGranted(cfg, st, uses, n - 1, name);
      } else {
        assert UserSays(cfg, st, uses, n - 1, AllowAlwaysForTool) && uses[n - 1].name == name;
      }
    }
  }

  /**
   The user's consent to call `k`: given for this very call, for its tool at an earlier call of the batch
   or this one, or before the batch.
   */
  ghost predicate Consented(cfg: Config, st: State, uses: seq<RecordedToolUse>, k: nat)
    requires k < |uses|
  {
    || uses[k].name in st.gate.always
    || UserSays(cfg, st, uses, k, Allow)
    || Granted(cfg, st, uses, k + 1, uses[k].name)
  }

  /** In default mode a mutating tool is allowed only with consent, and never past the two policy filters. */
  lemma AllowedMeansConsent(cfg: Config, st: State, uses: seq<RecordedToolUse>, k: nat)
    requires k < |uses| && Decide(cfg, After(cfg, st, uses, k).gate, uses[k]).1.Allowed?
    ensures uses[k].name !in cfg.blocklist && cfg.argumentFilter(uses[k]).None?
    ensures cfg.mode.Default? && IsMutating(uses[k].name) ==> Consented(cfg, st, uses, k)
    ensures cfg.mode.Plan? ==> !IsMutating(uses[k].name)
  {
    if cfg.mode.Default? && IsMutating(uses[k].name) {
      if uses[k].name in After(cfg, st, uses, k).gate.always {
        AlwaysIsGranted(cfg, st, uses, k, uses[k].name);
      } else {
        assert UserSays(cfg, st, uses, k, AllowAlwaysForTool) || UserSays(cfg, st, uses, k, Allow);
      }
    }
  }

  /** In default mode a mutating tool changes the world only with the user's consent. */
  lemma NoChangeWithoutConsent(cfg: Config, st: State, uses: seq<RecordedToolUse>, k: nat)
    requires k < |uses| && cfg.mode.Default? && IsMutating(uses[k].name)
    requires After(cfg, st, uses, k + 1).world != After(cfg, st, uses, k).world
    ensures uses[k].name !in cfg.blocklist && cfg.argumentFilter(uses[k]).None?
    ensures Consented(cfg, st, uses, k)
  {
    hide Consented;
    AllowedMeansConsent(cfg, st, uses, k);
  }

  /**
   In plan mode a call changes the world exactly when its tool is not among the mutating ones, no policy
   is in its way, and the tool does change it. The permissions never change.
   */
  lemma PlanModeChangesIff(cfg: Config, st: State, uses: seq<RecordedToolUse>, k: nat)
    requires k < |uses| && cfg.mode.Plan?
    ensures After(cfg, st, uses, k + 1).world != After(cfg, st, uses, k).world <==>
              && !IsMutating(uses[k].name) && uses[k].name !in cfg.blocklist && cfg.argumentFilter(uses[k]).None?
              && cfg.registered(uses[k].name)
              && cfg.tool(uses[k], After(cfg, st, uses, k).world).0 != After(cfg, st, uses, k).world
    ensures After(cfg, st, uses, k + 1).gate == After(cfg, st, uses, k).gate
  {
  }

  /** In plan mode nothing changes if the calls at hand to tools outside the mutating ones only read. */
  lemma {:induction false} PlanModeChangesNothing(cfg: Config, st: State, uses: seq<RecordedToolUse>, n: nat)
    requires n <= |uses| && cfg.mode.Plan?
    requires forall k, w :: 0 <= k < n && !IsMutating(uses[k].name) ==> cfg.tool(uses[k], w).0 == w
    ensures After(cfg, st, uses, n).world == st.world && After(cfg, st, uses, n).gate == st.gate
  {
    if n > 0 {
      PlanModeChangesNothing(cfg, st, uses, n - 1);
      PlanModeChangesIff(cfg, st, uses, n - 1);
    }
  }

  // ----- The concurrent reading -----

  /** How far a call has come. `Start` covers the decision prefix and the pre-hook. */
  datatype Slot =
    | Idle
    | Started(verdict: Verdict)
    | Ran(raw: Raw)
    | Done(result: RecordedToolResult)

  datatype Event = Start(k: nat) | Run(k: nat) | Finish(k: nat)

  datatype Batch = Batch(st: State, slots: seq<Slot>)

  /** Calls `j` and `k` are awaited together: all calls from one to the other are parallel-safe. */
  ghost predicate SameBatch(cfg: Config, uses: seq<RecordedToolUse>, j: nat, k: nat)
    requires j <= k < |uses|
  {
    !cfg.parallelDisabled && forall i :: j <= i <= k ==> CanRunParallel(cfg, uses[i])
  }

  /** Futures are polled in order, and a batch starts only when everything before it is done. */
  ghost predicate MayStart(cfg: Config, uses: seq<RecordedToolUse>, b: Batch, k: nat)
    requires |b.slots| == |uses| && k < |uses|
  {
    && b.slots[k].Idle?
    && forall j :: 0 <= j < k ==> !b.slots[j].Idle? && (b.slots[j].Done? || SameBatch(cfg, uses, j, k))
  }

  ghost predicate Enabled(cfg: Config, uses: seq<RecordedToolUse>, b: Batch, e: Event) {
    && |b.slots| == |uses|
    && e.k < |uses|
    && match e
       case Start(k) => MayStart(cfg, uses, b, k)
       case Run(k) => b.slots[k].Started? && !b.slots[k].verdict.Rejected?
       case Finish(k) => b.slots[k].Ran?
  }

  /** One atomic piece of one call. Any enabled event may come next. */
  function Step(cfg: Config, uses: seq<RecordedToolUse>, b: Batch, e: Event): Batch
    requires |b.slots| == |uses| && e.k < |uses|
    requires e.Run? ==> b.slots[e.k].Started? && !b.slots[e.k].verdict.Rejected?
    requires e.Finish? ==> b.slots[e.k].Ran?
  {
    var tu := uses[e.k];
    match e
    case Start(k) =>
      var (gate, v) := Decide(cfg, b.st.gate, tu);
      var slot := if v.Rejected? then Done(MakeResult(cfg, tu, v.why)) else Started(v);
      Batch(State(b.st.world, gate, b.st.reminders + PreNotes(cfg, tu, v)), b.slots[k := slot])
    case Run(k) =>
      var (world, raw) := Attempt(cfg, b.st.world, tu, b.slots[k].verdict);
      Batch(b.st.(world := world), b.slots[k := Ran(raw)])
    case Finish(k) =>
      var raw := b.slots[k].raw;
      Batch(b.st.(reminders := b.st.reminders + PostNotes(cfg, tu, raw)), b.slots[k := Done(MakeResult(cfg, tu, raw))])
  }

  function Initial(st: State, uses: seq<RecordedToolUse>): Batch {
    Batch(st, seq(|uses|, k => Idle))
  }

  /** The configuration a schedule leads to, if each of its events is enabled in turn. */
  ghost function Exec(cfg: Config, uses: seq<RecordedToolUse>, st: State, schedule: seq<Event>): Option<Batch> {
    if |schedule| == 0 then Some(Initial(st, uses))
    else
      var last := schedule[|schedule| - 1];
      match Exec(cfg, uses, st, schedule[..|schedule| - 1])
      case None => None
      case Some(b) => if Enabled(cfg, uses, b, last) then Some(Step(cfg, uses, b, last)) else None
  }

  ghost predicate AllDone(b: Batch) {
    forall k :: 0 <= k < |b.slots| ==> b.slots[k].Done?
  }

  // ----- What each call does in the sequential reading -----

  function VerdictOf(cfg: Config, st: State, uses: seq<RecordedToolUse>, k: nat): Verdict
    requires k < |uses|
  {
    Decide(cfg, After(cfg, st, uses, k).gate, uses[k]).1
  }

  function RawOf(cfg: Config, st: State, uses: seq<RecordedToolUse>, k: nat): Raw
    requires k < |uses| && !VerdictOf(cfg, st, uses, k).Rejected?
  {
    Attempt(cfg, After(cfg, st, uses, k).world, uses[k], VerdictOf(cfg, st, uses, k)).1
  }

  /** What call `k` has put on the reminder list by the time it reaches `slot`. */
  function Said(cfg: Config, st: State, uses: seq<RecordedToolUse>, k: nat, slot: Slot): multiset<Note>
    requires k < |uses|
  {
    var v := VerdictOf(cfg, st, uses, k);
    if slot.Idle? then multiset{}
    else if slot.Done? && !v.Rejected? then
      multiset(PreNotes(cfg, uses[k], v)) + multiset(PostNotes(cfg, uses[k], RawOf(cfg, st, uses, k)))
    else multiset(PreNotes(cfg, uses[k], v))
  }

  /** What each of the first `n` calls has said. */
  function Sayings(cfg: Config, st: State, uses: seq<RecordedToolUse>, slots: seq<Slot>,
                   n: nat): (bags: seq<multiset<Note>>)
    requires n <= |slots| == |uses|
    ensures |bags| == n && forall k :: 0 <= k < n ==> bags[k] == Said(cfg, st, uses, k, slots[k])
  {
    if n == 0 then [] else Sayings(cfg, st, uses, slots, n - 1) + [Said(cfg, st, uses, n - 1, slots[n - 1])]
  }

  function Sum(bags: seq<multiset<Note>>, n: nat): multiset<Note>
    requires n <= |bags|
  {
    if n == 0 then multiset{} else Sum(bags, n - 1) + bags[n - 1]
  }

  function AllSaid(cfg: Config, st: State, uses: seq<RecordedToolUse>, slots: seq<Slot>): multiset<Note>
    requires |slots| == |uses|
  {
    Sum(Sayings(cfg, st, uses, slots, |uses|), |uses|)
  }

  lemma {:induction false} SumSame(bags: seq<multiset<Note>>, now: seq<multiset<Note>>, n: nat)
    requires n <= |bags| && n <= |now| && forall i :: 0 <= i < n ==> now[i] == bags[i]
    ensures Sum(now, n) == Sum(bags, n)
  {
    if n > 0 { SumSame(bags, now, n - 1); }
  }

  lemma {:induction false} SumUpdate(bags: seq<multiset<Note>>, now: seq<multiset<Note>>, n: nat, k: nat)
    requires k < n <= |bags| == |now| && forall i :: 0 <= i < |bags| && i != k ==> now[i] == bags[i]
    ensures Sum(now, n) + bags[k] == Sum(bags, n) + now[k]
  {
    if k < n - 1 {
      SumUpdate(bags, now, n - 1, k);
      var a, b, c := Sum(now, n - 1), Sum(bags, n - 1), bags[n - 1];
      assert now[n - 1] == c;
      assert (a + c) + bags[k] == (a + bags[k]) + c;
      assert (b + c) + now[k] == (b + now[k]) + c;
    } else {
      SumSame(bags, now, n - 1);
    }
  }

  lemma {:induction false} SumEmpty(bags: seq<multiset<Note>>, n: nat)
    requires n <= |bags| && forall k :: 0 <= k < n ==> bags[k] == multiset{}
    ensures Sum(bags, n) == multiset{}
  {
    if n > 0 { SumEmpty(bags, n - 1); }
  }

  /** One call adds to the reminders what it says when it is done. */
  lemma RunOneSays(cfg: Config, st: State, uses: seq<RecordedToolUse>, k: nat, slot: Slot)
    requires k < |uses| && slot.Done?
    ensures multiset(After(cfg, st, uses, k + 1).reminders)
            == multiset(After(cfg, st, uses, k).reminders) + Said(cfg, st, uses, k, slot)
  {
  }

  lemma {:induction false} AllSaidFinally(cfg: Config, st: State, uses: seq<RecordedToolUse>, slots: seq<Slot>, n: nat)
    requires n <= |slots| == |uses| && forall k :: 0 <= k < |slots| ==> slots[k].Done?
    ensures multiset(st.reminders) + Sum(Sayings(cfg, st, uses, slots, |uses|), n)
            == multiset(After(cfg, st, uses, n).reminders)
  {
    hide RunOne, Said;
    if n > 0 {
      AllSaidFinally(cfg, st, uses, slots, n - 1);
      RunOneSays(cfg, st, uses, n - 1, slots[n - 1]);
    }
  }

  /** Over calls awaited together the world stands still. */
  lemma {:induction false} WorldStandsStill(cfg: Config, st: State, uses: seq<RecordedToolUse>, j: nat, k: nat)
    requires BatchedOnlyRead(cfg, st, uses) && j <= k <= |uses|
    requires forall i :: j <= i < k ==> IsBatched(cfg, uses, i)
    ensures After(cfg, st, uses, j).world == After(cfg, st, uses, k).world
  {
    if j < k {
      WorldStandsStill(cfg, st, uses, j, k - 1);
      assert IsBatched(cfg, uses, k - 1) && LeavesWorld(cfg, st, uses, k - 1);
    }
  }

  lemma SameBatchIsBatched(cfg: Config, uses: seq<RecordedToolUse>, j: nat, k: nat)
    requires j < k < |uses| && SameBatch(cfg, uses, j, k)
    ensures forall i :: j <= i <= k ==> IsBatched(cfg, uses, i)
  {
    forall i | j <= i <= k
      ensures IsBatched(cfg, uses, i)
    {
      assert CanRunParallel(cfg, uses[i]);
      assert i > j ==> CanRunParallel(cfg, uses[i - 1]);
      assert i < k ==> CanRunParallel(cfg, uses[i + 1]);
    }
  }

  // ----- The invariant of every schedule -----

  ghost predicate SlotAgrees(cfg: Config, st: State, uses: seq<RecordedToolUse>, started: nat, k: nat, slot: Slot)
    requires k < |uses|
  {
    match slot
    case Idle => k >= started
    case Started(v) => k < started && v == VerdictOf(cfg, st, uses, k) && !v.Rejected?
    case Ran(raw) => k < started && !VerdictOf(cfg, st, uses, k).Rejected? && raw == RawOf(cfg, st, uses, k)
    case Done(result) => k < started && result == ResultOf(cfg, st, uses, k)
  }

  /** Calls up to the one that last changed the world. */
  function Effective(b: Batch, started: nat): nat
    requires started <= |b.slots|
  {
    if started > 0 && b.slots[started - 1].Started? then started - 1 else started
  }

  ghost predicate Agrees(cfg: Config, st: State, uses: seq<RecordedToolUse>, started: nat, b: Batch) {
    && |b.slots| == |uses| && started <= |uses|
    && (forall k :: 0 <= k < |uses| ==> SlotAgrees(cfg, st, uses, started, k, b.slots[k]))
    && (forall k :: 0 <= k < started ==> b.slots[k].Done? || k == started - 1 || SameBatch(cfg, uses, k, started - 1))
    && b.st.gate == After(cfg, st, uses, started).gate
    && b.st.world == After(cfg, st, uses, Effective(b, started)).world
  }

  ghost predicate NotesAgree(cfg: Config, st: State, uses: seq<RecordedToolUse>, b: Batch) {
    |b.slots| == |uses| &&
    multiset(b.st.reminders) == multiset(st.reminders) + AllSaid(cfg, st, uses, b.slots)
  }

  lemma Cancel(a: multiset<Note>, b: multiset<Note>, c: multiset<Note>)
    requires a + c == b + c
    ensures a == b
  {
    forall x
      ensures a[x] == b[x]
    {
      assert (a + c)[x] == (b + c)[x];
    }
  }

  /** Call `k` moves on and adds `notes` to the reminders. */
  lemma NotesFollow(cfg: Config, st: State, uses: seq<RecordedToolUse>, b: Batch, c: Batch, k: nat, notes: seq<Note>)
    requires NotesAgree(cfg, st, uses, b) && k < |uses|
    requires |c.slots| == |uses| && c.slots == b.slots[k := c.slots[k]]
    requires c.st.reminders == b.st.reminders + notes
    requires Said(cfg, st, uses, k, c.slots[k]) == Said(cfg, st, uses, k, b.slots[k]) + multiset(notes)
    ensures NotesAgree(cfg, st, uses, c)
  {
    SumUpdate(Sayings(cfg, st, uses, b.slots, |uses|), Sayings(cfg, st, uses, c.slots, |uses|), |uses|, k);
    var was, now := AllSaid(cfg, st, uses, b.slots), AllSaid(cfg, st, uses, c.slots);
    var said := Said(cfg, st, uses, k, b.slots[k]);
    assert now + said == (was + multiset(notes)) + said;
    Cancel(now, was + multiset(notes), said);
  }

  lemma StartsInOrder(cfg: Config, st: State, uses: seq<RecordedToolUse>, started: nat, b: Batch, k: nat)
    requires Agrees(cfg, st, uses, started, b) && k < |uses| && MayStart(cfg, uses, b, k)
    ensures k == started
  {
    assert SlotAgrees(cfg, st, uses, started, k, b.slots[k]);
    assert started < |uses| ==> SlotAgrees(cfg, st, uses, started, started, b.slots[started]);
  }

  /** Replacing one slot by a correct one leaves the others correct. */
  lemma SlotReplaced(cfg: Config, st: State, uses: seq<RecordedToolUse>, m: nat, n: nat,
                     slots: seq<Slot>, now: seq<Slot>, k: nat)
    requires |slots| == |now| == |uses| && k < |uses| && now == slots[k := now[k]]
    requires n == m || (n == m + 1 && k == m)
    requires forall i :: 0 <= i < |uses| ==> SlotAgrees(cfg, st, uses, m, i, slots[i])
    requires SlotAgrees(cfg, st, uses, n, k, now[k])
    ensures forall i :: 0 <= i < |uses| ==> SlotAgrees(cfg, st, uses, n, i, now[i])
  {
    forall i | 0 <= i < |uses|
      ensures SlotAgrees(cfg, st, uses, n, i, now[i])
    {
      assert SlotAgrees(cfg, st, uses, m, i, slots[i]);
    }
  }

  /** When call `k` may start, the world is that of its turn in the sequential reading. */
  lemma StartsInItsWorld(cfg: Config, st: State, uses: seq<RecordedToolUse>, b: Batch, k: nat)
    requires BatchedOnlyRead(cfg, st, uses) && Agrees(cfg, st, uses, k, b)
    requires k < |uses| && MayStart(cfg, uses, b, k)
    ensures b.st.world == After(cfg, st, uses, k).world
  {
    hide RunOne, SlotAgrees;
    if k > 0 && b.slots[k - 1].Started? {
      assert SameBatch(cfg, uses, k - 1, k);
      SameBatchIsBatched(cfg, uses, k - 1, k);
      WorldStandsStill(cfg, st, uses, k - 1, k);
    }
  }

  lemma StartKeeps(cfg: Config, st: State, uses: seq<RecordedToolUse>, started: nat, b: Batch, k: nat)
    requires BatchedOnlyRead(cfg, st, uses) && Agrees(cfg, st, uses, started, b) && NotesAgree(cfg, st, uses, b)
    requires k < |uses| && Enabled(cfg, uses, b, Start(k))
    ensures Agrees(cfg, st, uses, started + 1, Step(cfg, uses, b, Start(k)))
    ensures NotesAgree(cfg, st, uses, Step(cfg, uses, b, Start(k)))
  {
    hide AllSaid, Sum, Sayings, PreNotes, PostNotes, NotesAgree, Attempt, Decide, MakeResult, CanRunParallel, SameBatch;
    StartsInOrder(cfg, st, uses, started, b, k);
    var c := Step(cfg, uses, b, Start(k));
    NotesFollow(cfg, st, uses, b, c, k, PreNotes(cfg, uses[k], VerdictOf(cfg, st, uses, k)));
    StartsInItsWorld(cfg, st, uses, b, k);
    SlotReplaced(cfg, st, uses, started, started + 1, b.slots, c.slots, k);
  }

  /** A call still under way sees the world of its turn in the sequential reading. */
  lemma SeesItsWorld(cfg: Config, st: State, uses: seq<RecordedToolUse>, started: nat, b: Batch, k: nat)
    requires BatchedOnlyRead(cfg, st, uses) && Agrees(cfg, st, uses, started, b)
    requires k < |uses| && b.slots[k].Started?
    ensures k < started
    ensures b.st.world == After(cfg, st, uses, k).world
    ensures k < started - 1 ==> LeavesWorld(cfg, st, uses, k)
  {
    assert SlotAgrees(cfg, st, uses, started, k, b.slots[k]);
    if k < started - 1 {
      assert SameBatch(cfg, uses, k, started - 1);
      SameBatchIsBatched(cfg, uses, k, started - 1);
      assert IsBatched(cfg, uses, k);
      WorldStandsStill(cfg, st, uses, k, started - 1);
      WorldStandsStill(cfg, st, uses, k, started);
    }
  }

  lemma RunKeeps(cfg: Config, st: State, uses: seq<RecordedToolUse>, started: nat, b: Batch, k: nat)
    requires BatchedOnlyRead(cfg, st, uses) && Agrees(cfg, st, uses, started, b) && NotesAgree(cfg, st, uses, b)
    requires k < |uses| && Enabled(cfg, uses, b, Run(k))
    ensures Agrees(cfg, st, uses, started, Step(cfg, uses, b, Run(k)))
    ensures NotesAgree(cfg, st, uses, Step(cfg, uses, b, Run(k)))
  {
    hide Decide, AllSaid, PreNotes, PostNotes, NotesAgree;
    assert SlotAgrees(cfg, st, uses, started, k, b.slots[k]);
    var c := Step(cfg, uses, b, Run(k));
    NotesFollow(cfg, st, uses, b, c, k, []);
    SeesItsWorld(cfg, st, uses, started, b, k);
    if k < started - 1 { assert c.st.world == After(cfg, st, uses, k + 1).world; }
    SlotReplaced(cfg, st, uses, started, started, b.slots, c.slots, k);
  }

  lemma FinishKeeps(cfg: Config, st: State, uses: seq<RecordedToolUse>, started: nat, b: Batch, k: nat)
    requires Agrees(cfg, st, uses, started, b) && NotesAgree(cfg, st, uses, b)
    requires k < |uses| && Enabled(cfg, uses, b, Finish(k))
    ensures Agrees(cfg, st, uses, started, Step(cfg, uses, b, Finish(k)))
    ensures NotesAgree(cfg, st, uses, Step(cfg, uses, b, Finish(k)))
  {
    hide Decide, Attempt, AllSaid, PreNotes, PostNotes, SameBatch, NotesAgree, CanRunParallel;
    assert SlotAgrees(cfg, st, uses, started, k, b.slots[k]);
    var c := Step(cfg, uses, b, Finish(k));
    NotesFollow(cfg, st, uses, b, c, k, PostNotes(cfg, uses[k], RawOf(cfg, st, uses, k)));
    SlotReplaced(cfg, st, uses, started, started, b.slots, c.slots, k);
  }

  function StartedCount(started: nat, e: Event): nat {
    if e.Start? then started + 1 else started
  }

  lemma StepKeeps(cfg: Config, st: State, uses: seq<RecordedToolUse>, started: nat, b: Batch, e: Event)
    requires BatchedOnlyRead(cfg, st, uses) && Agrees(cfg, st, uses, started, b) && NotesAgree(cfg, st, uses, b)
    requires Enabled(cfg, uses, b, e)
    ensures Agrees(cfg, st, uses, StartedCount(started, e), Step(cfg, uses, b, e))
    ensures NotesAgree(cfg, st, uses, Step(cfg, uses, b, e))
  {
    match e
    case Start(k) => StartKeeps(cfg, st, uses, started, b, k);
    case Run(k) => RunKeeps(cfg, st, uses, started, b, k);
    case Finish(k) => FinishKeeps(cfg, st, uses, started, b, k);
  }

  // ----- Every schedule -----

  lemma InitiallyAgrees(cfg: Config, st: State, uses: seq<RecordedToolUse>)
    ensures Agrees(cfg, st, uses, 0, Initial(st, uses)) && NotesAgree(cfg, st, uses, Initial(st, uses))
  {
    var b := Initial(st, uses);
    SumEmpty(Sayings(cfg, st, uses, b.slots, |uses|), |uses|);
    forall k | 0 <= k < |uses|
      ensures SlotAgrees(cfg, st, uses, 0, k, b.slots[k])
    {
    }
  }

  function Starts(schedule: seq<Event>): nat {
    if |schedule| == 0 then 0 else StartedCount(Starts(schedule[..|schedule| - 1]), schedule[|schedule| - 1])
  }

  lemma {:induction false} EveryScheduleAgrees(cfg: Config, st: State, uses: seq<RecordedToolUse>, schedule: seq<Event>)
    requires BatchedOnlyRead(cfg, st, uses) && Exec(cfg, uses, st, schedule).Some?
    ensures Agrees(cfg, st, uses, Starts(schedule), Exec(cfg, uses, st, schedule).value)
    ensures NotesAgree(cfg, st, uses, Exec(cfg, uses, st, schedule).value)
  {
    if |schedule| == 0 {
      InitiallyAgrees(cfg, st, uses);
    } else {
      var before, e := schedule[..|schedule| - 1], schedule[|schedule| - 1];
      EveryScheduleAgrees(cfg, st, uses, before);
      StepKeeps(cfg, st, uses, Starts(before), Exec(cfg, uses, st, before).value, e);
    }
  }

  /** The results, in the model's order, that a completed batch hands back. */
  function Collect(slots: seq<Slot>, n: nat): (results: seq<RecordedToolResult>)
    requires n <= |slots| && forall k :: 0 <= k < n ==> slots[k].Done?
    ensures |results| == n && forall k :: 0 <= k < n ==> results[k] == slots[k].result
  {
    if n == 0 then [] else Collect(slots, n - 1) + [slots[n - 1].result]
  }

  lemma DoneAgrees(cfg: Config, st: State, uses: seq<RecordedToolUse>, started: nat, b: Batch)
    requires Agrees(cfg, st, uses, started, b) && NotesAgree(cfg, st, uses, b) && AllDone(b)
    ensures Collect(b.slots, |uses|) == SequentialResults(cfg, st, uses, |uses|)
    ensures var end := After(cfg, st, uses, |uses|);
            b.st.world == end.world && b.st.gate == end.gate && multiset(b.st.reminders) == multiset(end.reminders)
  {
    hide RunOne, Decide, Attempt, Said, Sum, Sayings, SameBatch, RawOf;
    assert started < |uses| ==> SlotAgrees(cfg, st, uses, started, started, b.slots[started]);
    AllSaidFinally(cfg, st, uses, b.slots, |uses|);
    forall k | 0 <= k < |uses|
      ensures b.slots[k].result == ResultOf(cfg, st, uses, k)
    {
      assert SlotAgrees(cfg, st, uses, started, k, b.slots[k]);
    }
  }

  /**
   Whatever the interleaving, a completed schedule has the results, the world, the always-allow
   set and the questions of the sequential loop, and its reminders up to order.
   */
  lemma ConcurrencyIsInvisible(cfg: Config, st: State, uses: seq<RecordedToolUse>, schedule: seq<Event>)
    requires BatchedOnlyRead(cfg, st, uses)
    requires Exec(cfg, uses, st, schedule).Some? && AllDone(Exec(cfg, uses, st, schedule).value)
    ensures var b := Exec(cfg, uses, st, schedule).value;
            var end := After(cfg, st, uses, |uses|);
            && |b.slots| == |uses|
            && Collect(b.slots, |uses|) == SequentialResults(cfg, st, uses, |uses|)
            && b.st.world == end.world && b.st.gate == end.gate
            && multiset(b.st.reminders) == multiset(end.reminders)
  {
    EveryScheduleAgrees(cfg, st, uses, schedule);
    DoneAgrees(cfg, st, uses, Starts(schedule), Exec(cfg, uses, st, schedule).value);
  }

  // ----- What holds of every schedule, whatever the tools do -----

  /** How far call `k` may be when `started` calls have started, and under which verdict. */
  ghost predicate SlotFits(cfg: Config, st: State, uses: seq<RecordedToolUse>, started: nat, k: nat, slot: Slot)
    requires k < |uses|
  {
    match slot
    case Idle => k >= started
    case Started(v) => k < started && v == VerdictOf(cfg, st, uses, k) && !v.Rejected?
    case Ran(_) => k < started && !VerdictOf(cfg, st, uses, k).Rejected?
    case Done(_) => k < started
  }

  ghost predicate InShape(cfg: Config, st: State, uses: seq<RecordedToolUse>, started: nat, b: Batch) {
    && |b.slots| == |uses| && started <= |uses|
    && (forall k :: 0 <= k < |uses| ==> SlotFits(cfg, st, uses, started, k, b.slots[k]))
    && (forall k :: 0 <= k < started ==> b.slots[k].Done? || k == started - 1 || SameBatch(cfg, uses, k, started - 1))
    && b.st.gate == After(cfg, st, uses, started).gate
  }

  lemma StepStaysInShape(cfg: Config, st: State, uses: seq<RecordedToolUse>, started: nat, b: Batch, e: Event)
    requires InShape(cfg, st, uses, started, b) && Enabled(cfg, uses, b, e)
    ensures InShape(cfg, st, uses, StartedCount(started, e), Step(cfg, uses, b, e))
    ensures e.Start? ==> e.k == started
  {
    hide Attempt, MakeResult, PreNotes, PostNotes, CanRunParallel, Decide;
    var now := Step(cfg, uses, b, e);
    assert SlotFits(cfg, st, uses, started, e.k, b.slots[e.k]);
    assert started < |uses| ==> SlotFits(cfg, st, uses, started, started, b.slots[started]);
    GateFollows(cfg, st, uses, e.k);
    forall k | 0 <= k < |uses|
      ensures SlotFits(cfg, st, uses, StartedCount(started, e), k, now.slots[k])
    {
      assert SlotFits(cfg, st, uses, started, k, b.slots[k]);
    }
  }

  /** The decision prefix alone moves the permissions. */
  lemma GateFollows(cfg: Config, st: State, uses: seq<RecordedToolUse>, k: nat)
    requires k < |uses|
    ensures After(cfg, st, uses, k + 1).gate == Decide(cfg, After(cfg, st, uses, k).gate, uses[k]).0
  {
  }

  lemma {:induction false} EveryScheduleIsInShape(cfg: Config, st: State, uses: seq<RecordedToolUse>,
                                                  schedule: seq<Event>)
    requires Exec(cfg, uses, st, schedule).Some?
    ensures InShape(cfg, st, uses, Starts(schedule), Exec(cfg, uses, st, schedule).value)
  {
    hide InShape, Step, Enabled;
    if |schedule| == 0 {
      InitiallyInShape(cfg, st, uses);
    } else {
      var before, e := schedule[..|schedule| - 1], schedule[|schedule| - 1];
      EveryScheduleIsInShape(cfg, st, uses, before);
      StepStaysInShape(cfg, st, uses, Starts(before), Exec(cfg, uses, st, before).value, e);
    }
  }

  lemma InitiallyInShape(cfg: Config, st: State, uses: seq<RecordedToolUse>)
    ensures InShape(cfg, st, uses, 0, Initial(st, uses))
  {
  }

  /** Permissions are those of the sequential loop, also when a tool that should only read misbehaves. */
  lemma PermissionsAgree(cfg: Config, st: State, uses: seq<RecordedToolUse>, schedule: seq<Event>)
    requires Exec(cfg, uses, st, schedule).Some?
    ensures Starts(schedule) <= |uses|
    ensures Exec(cfg, uses, st, schedule).value.st.gate == After(cfg, st, uses, Starts(schedule)).gate
    ensures AllDone(Exec(cfg, uses, st, schedule).value) ==> Starts(schedule) == |uses|
  {
    EveryScheduleIsInShape(cfg, st, uses, schedule);
    var b, m := Exec(cfg, uses, st, schedule).value, Starts(schedule);
    assert m < |uses| ==> SlotFits(cfg, st, uses, m, m, b.slots[m]);
  }

  /** In default mode no schedule lets a mutating tool change the world without consent, and in plan mode none does. */
  lemma NoScheduleSkipsConsent(cfg: Config, st: State, uses: seq<RecordedToolUse>, schedule: seq<Event>, k: nat)
    requires Exec(cfg, uses, st, schedule).Some? && Enabled(cfg, uses, Exec(cfg, uses, st, schedule).value, Run(k))
    requires var b := Exec(cfg, uses, st, schedule).value; Step(cfg, uses, b, Run(k)).st.world != b.st.world
    requires IsMutating(uses[k].name)
    ensures uses[k].name !in cfg.blocklist && cfg.argumentFilter(uses[k]).None?
    ensures cfg.mode.Default? ==> Consented(cfg, st, uses, k)
    ensures !cfg.mode.Plan?
  {
    hide Consented, Decide;
    EveryScheduleIsInShape(cfg, st, uses, schedule);
    var b := Exec(cfg, uses, st, schedule).value;
    assert SlotFits(cfg, st, uses, Starts(schedule), k, b.slots[k]);
    AllowedMeansConsent(cfg, st, uses, k);
  }

  predicate InFlight(slot: Slot) {
    slot.Started? || slot.Ran?
  }

  /** At no point of any schedule is a call that is not parallel-safe under way beside another. */
  lemma NoUnsafeOverlap(cfg: Config, st: State, uses: seq<RecordedToolUse>, schedule: seq<Event>, j: nat, k: nat)
    requires Exec(cfg, uses, st, schedule).Some?
    requires j < k < |uses|
    ensures var b := Exec(cfg, uses, st, schedule).value;
            |b.slots| == |uses| && (InFlight(b.slots[j]) && InFlight(b.slots[k]) ==>
              CanRunParallel(cfg, uses[j]) && CanRunParallel(cfg, uses[k]) && !cfg.parallelDisabled)
  {
    EveryScheduleIsInShape(cfg, st, uses, schedule);
    var b, m := Exec(cfg, uses, st, schedule).value, Starts(schedule);
    assert SlotFits(cfg, st, uses, m, k, b.slots[k]);
    if InFlight(b.slots[j]) && InFlight(b.slots[k]) {
      assert SameBatch(cfg, uses, j, m - 1);
    }
  }

  /** How often a schedule carries out call `k`. */
  function Runs(schedule: seq<Event>, k: nat): nat {
    if |schedule| == 0 then 0
    else Runs(schedule[..|schedule| - 1], k) + if schedule[|schedule| - 1] == Run(k) then 1 else 0
  }

  lemma {:induction false} RunsFollowSlot(cfg: Config, st: State, uses: seq<RecordedToolUse>, schedule: seq<Event>,
                                          k: nat)
    requires Exec(cfg, uses, st, schedule).Some? && k < |uses|
    ensures var b := Exec(cfg, uses, st, schedule).value;
            |b.slots| == |uses| &&
            Runs(schedule, k) == if b.slots[k].Ran? || (b.slots[k].Done? && !VerdictOf(cfg, st, uses, k).Rejected?)
                                 then 1 else 0
  {
    hide RunOne, After, Decide, Attempt, SameBatch, InShape;
    if |schedule| > 0 {
      var before, e := schedule[..|schedule| - 1], schedule[|schedule| - 1];
      RunsFollowSlot(cfg, st, uses, before, k);
      var was, now := Exec(cfg, uses, st, before).value, Exec(cfg, uses, st, schedule).value;
      EveryScheduleIsInShape(cfg, st, uses, before);
      StepStaysInShape(cfg, st, uses, Starts(before), was, e);
      FitsAt(cfg, st, uses, Starts(before), was, k);
      StartVerdict(cfg, st, uses, Starts(before), was);
    }
  }

  lemma FitsAt(cfg: Config, st: State, uses: seq<RecordedToolUse>, started: nat, b: Batch, k: nat)
    requires InShape(cfg, st, uses, started, b) && k < |uses|
    ensures |b.slots| == |uses| && SlotFits(cfg, st, uses, started, k, b.slots[k])
  {
  }

  /** The next call to start meets the permissions of its turn in the sequential reading. */
  lemma StartVerdict(cfg: Config, st: State, uses: seq<RecordedToolUse>, started: nat, b: Batch)
    requires InShape(cfg, st, uses, started, b)
    ensures started < |uses| ==>
              Decide(cfg, b.st.gate, uses[started]).1 == VerdictOf(cfg, st, uses, started)
  {
    hide Decide;
  }

  /** In a completed schedule every call that policy does not reject is dispatched exactly once. */
  lemma EachRunsOnce(cfg: Config, st: State, uses: seq<RecordedToolUse>, schedule: seq<Event>, k: nat)
    requires k < |uses|
    requires Exec(cfg, uses, st, schedule).Some? && AllDone(Exec(cfg, uses, st, schedule).value)
    ensures Runs(schedule, k) == if VerdictOf(cfg, st, uses, k).Rejected? then 0 else 1
  {
    RunsFollowSlot(cfg, st, uses, schedule, k);
  }

  // ----- Without the premise -----

  /** Everything is allowed, and the call with id "a" writes the file that any other call reads. */
  const CARELESS: Config := Config(
    BypassPermissions, {}, _ => None, None, _ => [], (_, _, _) => [], _ => true, WriteOrRead, PlainText,
    _ => true, false)

  function WriteOrRead(tu: RecordedToolUse, w: World): (World, Raw) {
    if tu.id == Id("a") then (w["f" := ""], Output("")) else (w, Output(if "f" in w then "new" else "old"))
  }

  function PlainText(tu: RecordedToolUse, raw: Raw): string {
    if raw.Output? then raw.text else ""
  }

  const WRITE_READ: seq<RecordedToolUse> := [RecordedToolUse(Id("a"), Bash, ""), RecordedToolUse(Id("b"), Bash, "")]

  const NOTHING_DONE: State := State(map[], Gate({}, 0), [])

  lemma ExecSnoc(cfg: Config, uses: seq<RecordedToolUse>, st: State, schedule: seq<Event>, e: Event)
    requires Exec(cfg, uses, st, schedule).Some? && Enabled(cfg, uses, Exec(cfg, uses, st, schedule).value, e)
    ensures Exec(cfg, uses, st, schedule + [e]) == Some(Step(cfg, uses, Exec(cfg, uses, st, schedule).value, e))
  {
    assert (schedule + [e])[..|schedule|] == schedule;
  }

  /** The reader runs before the writer that stands in front of it. */
  lemma ReadFirst() returns (schedule: seq<Event>, end: Batch)
    ensures Exec(CARELESS, WRITE_READ, NOTHING_DONE, schedule) == Some(end) && AllDone(end)
    ensures |end.slots| == 2 && end.slots[1].result.content == "old"
  {
    schedule, end := [], Initial(NOTHING_DONE, WRITE_READ);
    schedule, end := Next(schedule, end, Start(0));
    assert SameBatch(CARELESS, WRITE_READ, 0, 1);
    schedule, end := Next(schedule, end, Start(1));
    schedule, end := Next(schedule, end, Run(1));
    schedule, end := Next(schedule, end, Run(0));
    schedule, end := Next(schedule, end, Finish(0));
    schedule, end := Next(schedule, end, Finish(1));
  }

  lemma Next(schedule: seq<Event>, b: Batch, e: Event) returns (longer: seq<Event>, next: Batch)
    requires Exec(CARELESS, WRITE_READ, NOTHING_DONE, schedule) == Some(b) && Enabled(CARELESS, WRITE_READ, b, e)
    ensures Exec(CARELESS, WRITE_READ, NOTHING_DONE, longer) == Some(next)
    ensures next == Step(CARELESS, WRITE_READ, b, e)
  {
    ExecSnoc(CARELESS, WRITE_READ, NOTHING_DONE, schedule, e);
    longer, next := schedule + [e], Step(CARELESS, WRITE_READ, b, e);
  }

  /** Two shell commands that pass for read-only, of which the first writes: the second may read too early. */
  lemma WritersShow() returns (schedule: seq<Event>, end: Batch)
    ensures !BatchedOnlyRead(CARELESS, NOTHING_DONE, WRITE_READ)
    ensures Exec(CARELESS, WRITE_READ, NOTHING_DONE, schedule) == Some(end) && AllDone(end) && |end.slots| == 2
    ensures Collect(end.slots, 2) != SequentialResults(CARELESS, NOTHING_DONE, WRITE_READ, 2)
  {
    schedule, end := ReadFirst();
    WriterFirst();
    assert Collect(end.slots, 2)[1].content == "old";
    assert SequentialResults(CARELESS, NOTHING_DONE, WRITE_READ, 2)[1].content == "new";
  }

  /** A tool outside the table of mutating ones writes in plan mode. */
  lemma PlanModeLetsUnlistedWrite()
    ensures var cfg, todo := CARELESS.(mode := Plan), [RecordedToolUse(Id("a"), Other("TodoWrite"), "")];
            After(cfg, NOTHING_DONE, todo, 1).world != NOTHING_DONE.world
  {
    var cfg, todo := CARELESS.(mode := Plan), [RecordedToolUse(Id("a"), Other("TodoWrite"), "")];
    assert After(cfg, NOTHING_DONE, todo, 0) == NOTHING_DONE;
    assert "f" in After(cfg, NOTHING_DONE, todo, 1).world && "f" !in NOTHING_DONE.world;
  }

  lemma WriterFirst()
    ensures ResultOf(CARELESS, NOTHING_DONE, WRITE_READ, 1).content == "new"
    ensures IsBatched(CARELESS, WRITE_READ, 0) && !LeavesWorld(CARELESS, NOTHING_DONE, WRITE_READ, 0)
  {
    assert After(CARELESS, NOTHING_DONE, WRITE_READ, 0) == NOTHING_DONE;
    assert After(CARELESS, NOTHING_DONE, WRITE_READ, 1).world == map["f" := ""];
    assert "f" in After(CARELESS, NOTHING_DONE, WRITE_READ, 1).world && "f" !in NOTHING_DONE.world;
  }

  // ----- The executor -----

  /** Pieces still to come. */
  function Left(slot: Slot): nat {
    match slot
    case Idle => 3
    case Started(_) => 2
    case Ran(_) => 1
    case Done(_) => 0
  }

  function AllLeft(slots: seq<Slot>, n: nat): nat
    requires n <= |slots|
  {
    if n == 0 then 0 else AllLeft(slots, n - 1) + Left(slots[n - 1])
  }

  lemma {:induction false} AllLeftUpdate(slots: seq<Slot>, now: seq<Slot>, n: nat, k: nat)
    requires n <= |slots| == |now| && k < |slots| && now == slots[k := now[k]]
    ensures AllLeft(now, n) == AllLeft(slots, n) + if k < n then Left(now[k]) - Left(slots[k]) else 0
  {
    if n > 0 { AllLeftUpdate(slots, now, n - 1, k); }
  }

  /** The futures that the runtime may poll next with effect. */
  predicate Ready(slots: seq<Slot>, from: nat, k: nat)
    requires from <= k < |slots|
  {
    !slots[k].Done? && (slots[k].Idle? ==> forall m :: from <= m < k ==> !slots[m].Idle?)
  }

  lemma {:induction false} SomeReady(slots: seq<Slot>, from: nat, to: nat, k: nat)
    requires from <= k < to <= |slots| && !slots[k].Done?
    ensures exists r :: from <= r < to && Ready(slots, from, r)
    decreases k
  {
    if m :| from <= m < k && slots[m].Idle? {
      SomeReady(slots, from, to, m);
    } else {
      assert Ready(slots, from, k);
    }
  }

  class Executor {
    const cfg: Config
    var state: State

    constructor (cfg: Config, state: State)
      ensures this.cfg == cfg && this.state == state
    {
      this.cfg, this.state := cfg, state;
    }

    /** Runs one future up to its next await, or to its end. */
    method Advance(uses: seq<RecordedToolUse>, slots: seq<Slot>, k: nat) returns (now: seq<Slot>, ghost e: Event)
      requires |slots| == |uses| && k < |uses| && !slots[k].Done?
      requires slots[k].Started? ==> !slots[k].verdict.Rejected?
      modifies this
      ensures e == match slots[k] case Idle => Start(k) case Started(_) => Run(k) case _ => Finish(k)
      ensures Batch(state, now) == Step(cfg, uses, Batch(old(state), slots), e)
    {
      var tu := uses[k];
      match slots[k]
      case Idle =>
        e := Start(k);
        var (gate, v) := Decide(cfg, state.gate, tu);
        state := state.(gate := gate, reminders := state.reminders + PreNotes(cfg, tu, v));
        now := slots[k := if v.Rejected? then Done(MakeResult(cfg, tu, v.why)) else Started(v)];
      case Started(v) =>
        e := Run(k);
        var (world, raw) := Attempt(cfg, state.world, tu, v);
        state := state.(world := world);
        now := slots[k := Ran(raw)];
      case Ran(raw) =>
        e := Finish(k);
        state := state.(reminders := state.reminders + PostNotes(cfg, tu, raw));
        now := slots[k := Done(MakeResult(cfg, tu, raw))];
    }

    /** Awaits the calls from `from` up to `to` together; the runtime picks which one moves. */
    method Await(uses: seq<RecordedToolUse>, from: nat, to: nat, slots: seq<Slot>, ghost st: State,
                 ghost before: seq<Event>)
      returns (now: seq<Slot>, ghost schedule: seq<Event>)
      requires from < to <= |uses| && (to == from + 1 || SameBatch(cfg, uses, from, to - 1))
      requires Exec(cfg, uses, st, before) == Some(Batch(state, slots))
      requires |slots| == |uses| && forall k :: 0 <= k < |uses| ==> if k < from then slots[k].Done? else slots[k].Idle?
      modifies this
      ensures Exec(cfg, uses, st, schedule) == Some(Batch(state, now))
      ensures |now| == |uses| && forall k :: 0 <= k < |uses| ==> if k < to then now[k].Done? else now[k].Idle?
    {
      now, schedule := slots, before;
      while exists k :: from <= k < to && !now[k].Done?
        invariant |now| == |uses|
        invariant Exec(cfg, uses, st, schedule) == Some(Batch(state, now))
        invariant forall k :: 0 <= k < from ==> now[k].Done?
        invariant forall k :: to <= k < |uses| ==> now[k].Idle?
        invariant forall k :: from <= k < to && now[k].Started? ==> !now[k].verdict.Rejected?
        decreases AllLeft(now, |now|)
      {
        ghost var open :| from <= open < to && !now[open].Done?;
        SomeReady(now, from, to, open);
        var k :| from <= k < to && Ready(now, from, k);
        ghost var was := Batch(state, now);
        ghost var e;
        now, e := Advance(uses, now, k);
        AllLeftUpdate(was.slots, now, |now|, k);
        assert Enabled(cfg, uses, was, e);
        assert (schedule + [e])[..|schedule|] == schedule;
        schedule := schedule + [e];
      }
    }

    /** Runs all calls; contiguous parallel-safe ones are awaited as one batch. */
    method Execute(uses: seq<RecordedToolUse>) returns (results: seq<RecordedToolResult>, ghost schedule: seq<Event>)
      requires BatchedOnlyRead(cfg, state, uses)
      modifies this
      ensures Exec(cfg, uses, old(state), schedule).Some?
      ensures results == SequentialResults(cfg, old(state), uses, |uses|)
      ensures var end := After(cfg, old(state), uses, |uses|);
              && state.world == end.world && state.gate == end.gate
              && multiset(state.reminders) == multiset(end.reminders)
    {
      var slots := seq(|uses|, k => Idle);
      schedule := [];
      var i := 0;
      while i < |uses|
        invariant 0 <= i <= |uses| == |slots|
        invariant Exec(cfg, uses, old(state), schedule) == Some(Batch(state, slots))
        invariant forall k :: 0 <= k < |uses| ==> if k < i then slots[k].Done? else slots[k].Idle?
      {
        var j := i + 1;
        if !cfg.parallelDisabled && CanRunParallel(cfg, uses[i]) {
          while j < |uses| && CanRunParallel(cfg, uses[j])
            invariant i < j <= |uses|
            invariant forall k :: i <= k < j ==> CanRunParallel(cfg, uses[k])
          {
            j := j + 1;
          }
        }
        slots, schedule := Await(uses, i, j, slots, old(state), schedule);
        i := j;
      }
      ConcurrencyIsInvisible(cfg, old(state), uses, schedule);
      results := Collect(slots, |uses|);
    }
  }
}
