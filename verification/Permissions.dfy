/**
 What the permissions let through, told from the calls, the policies and the user's answers alone:
 which calls may touch the world in which mode, what every result says, and which calls may overlap.
 */
module Permissions {
  import opened Prelude
  import opened Messages
  import opened Execution

  const FILE_TOOLS: set<ToolName> := {Write, Edit, NotebookEdit}
  const MUTATING_TOOLS: set<ToolName> := {Write, Edit, NotebookEdit, Bash, WebFetch, WebSearch, MemoryWrite}
  const READING_TOOLS: set<ToolName> := {Read, Glob, Grep, MemoryRead, WebFetch, WebSearch}

  predicate PassesPolicy(cfg: Config, tu: RecordedToolUse) {
    tu.name !in cfg.blocklist && cfg.argumentFilter(tu).None?
  }

  /** Tool `name` was always allowed, or the user allowed it for good at one of the first `n` calls. */
  ghost predicate AllowedForGood(cfg: Config, st: State, uses: seq<RecordedToolUse>, n: nat, name: ToolName)
    requires n <= |uses|
    decreases n, 0
  {
    || name in st.gate.always
    || exists j :: 0 <= j < n && uses[j].name == name && SaysAt(cfg, st, uses, j, AllowAlwaysForTool)
  }

  /** The user is asked about call `k`. */
  ghost predicate AskedAt(cfg: Config, st: State, uses: seq<RecordedToolUse>, k: nat)
    requires k < |uses|
    decreases k, 1
  {
    && cfg.mode.Default? && uses[k].name in MUTATING_TOOLS && PassesPolicy(cfg, uses[k])
    && cfg.answer.Some? && !AllowedForGood(cfg, st, uses, k, uses[k].name)
  }

  /** The user is asked about call `k` and says so. */
  ghost predicate SaysAt(cfg: Config, st: State, uses: seq<RecordedToolUse>, k: nat, reply: PermissionAnswer)
    requires k < |uses|
    decreases k, 2
  {
    AskedAt(cfg, st, uses, k)
    && cfg.answer.value(st.gate.asked + Questions(cfg, st, uses, k), uses[k]) == reply
  }

  /** How often the user is asked over the first `n` calls. */
  ghost function Questions(cfg: Config, st: State, uses: seq<RecordedToolUse>, n: nat): nat
    requires n <= |uses|
    decreases n, 0
  {
    if n == 0 then 0
    else Questions(cfg, st, uses, n - 1) + if AskedAt(cfg, st, uses, n - 1) then 1 else 0
  }

  ghost predicate Permitted(cfg: Config, st: State, uses: seq<RecordedToolUse>, k: nat)
    requires k < |uses|
  {
    && PassesPolicy(cfg, uses[k])
    && match cfg.mode
       case BypassPermissions => true
       case AcceptEdits => uses[k].name !in MUTATING_TOOLS || uses[k].name in FILE_TOOLS
       case Plan => uses[k].name !in MUTATING_TOOLS
       case Default =>
         || uses[k].name !in MUTATING_TOOLS
         || AllowedForGood(cfg, st, uses, k, uses[k].name)
         || SaysAt(cfg, st, uses, k, Allow) || SaysAt(cfg, st, uses, k, AllowAlwaysForTool)
  }

  /** What is reported of call `k`: what its tool says, or why it was not carried out. */
  ghost function Report(cfg: Config, st: State, uses: seq<RecordedToolUse>, k: nat): Raw
    requires k < |uses|
  {
    if uses[k].name in cfg.blocklist then PolicyBlocked
    else if cfg.argumentFilter(uses[k]).Some? then ArgumentBlocked(cfg.argumentFilter(uses[k]).value)
    else if !Permitted(cfg, st, uses, k) then
      if SaysAt(cfg, st, uses, k, Deny) then UserDenied else ModeRefused(cfg.mode)
    else if !cfg.registered(uses[k].name) then UnknownTool
    else cfg.tool(uses[k], After(cfg, st, uses, k).world).1
  }

  // ----- The sequential loop -----

  lemma {:induction false} Tables(name: ToolName)
    ensures IsMutating(name) <==> name in MUTATING_TOOLS
    ensures IsFileMutator(name) <==> name in FILE_TOOLS
    ensures IsParallelSafe(name) <==> name in READING_TOOLS
  {
  }

  ghost predicate GateAgrees(cfg: Config, st: State, uses: seq<RecordedToolUse>, n: nat)
    requires n <= |uses|
  {
    var gate := After(cfg, st, uses, n).gate;
    && gate.asked == st.gate.asked + Questions(cfg, st, uses, n)
    && forall name :: name in gate.always <==> AllowedForGood(cfg, st, uses, n, name)
  }

  /** The question of call `k`, as the gate poses it. */
  lemma {:induction false} SaysIs(cfg: Config, st: State, uses: seq<RecordedToolUse>, k: nat, reply: PermissionAnswer)
    requires k < |uses| && GateAgrees(cfg, st, uses, k)
    ensures var gate, tu := After(cfg, st, uses, k).gate, uses[k];
            && (SaysAt(cfg, st, uses, k, reply) <==>
                  && cfg.mode.Default? && IsMutating(tu.name) && PassesPolicy(cfg, tu)
                  && tu.name !in gate.always && cfg.answer.Some? && cfg.answer.value(gate.asked, tu) == reply)
            && (AskedAt(cfg, st, uses, k) <==>
                  && cfg.mode.Default? && IsMutating(tu.name) && PassesPolicy(cfg, tu)
                  && tu.name !in gate.always && cfg.answer.Some?)
  {
    hide After, PassesPolicy;
    Tables(uses[k].name);
    assert uses[k].name in After(cfg, st, uses, k).gate.always <==> AllowedForGood(cfg, st, uses, k, uses[k].name);
  }

  /** The verdict on a call, by the user's word and the mode. */
  lemma {:induction false} VerdictIs(cfg: Config, st: State, uses: seq<RecordedToolUse>, k: nat)
    requires k < |uses| && GateAgrees(cfg, st, uses, k)
    ensures var v := VerdictOf(cfg, st, uses, k);
            && (v.Rejected? <==> !PassesPolicy(cfg, uses[k]))
            && (v.Allowed? <==> Permitted(cfg, st, uses, k))
            && (!v.Allowed? ==> v.why == Report(cfg, st, uses, k))
  {
    hide After, SaysAt, AskedAt, AllowedForGood;
    Tables(uses[k].name);
    SaysIs(cfg, st, uses, k, Allow);
    SaysIs(cfg, st, uses, k, AllowAlwaysForTool);
    SaysIs(cfg, st, uses, k, Deny);
    assert uses[k].name in After(cfg, st, uses, k).gate.always <==> AllowedForGood(cfg, st, uses, k, uses[k].name);
  }

  lemma {:induction false} AllowedNext(cfg: Config, st: State, uses: seq<RecordedToolUse>, k: nat, name: ToolName)
    requires k < |uses|
    ensures AllowedForGood(cfg, st, uses, k + 1, name) <==>
            || AllowedForGood(cfg, st, uses, k, name)
            || (uses[k].name == name && SaysAt(cfg, st, uses, k, AllowAlwaysForTool))
  {
    hide SaysAt;
  }

  lemma {:induction false} GateMoves(cfg: Config, st: State, uses: seq<RecordedToolUse>, k: nat)
    requires k < |uses| && GateAgrees(cfg, st, uses, k)
    ensures GateAgrees(cfg, st, uses, k + 1)
  {
    hide After, AllowedForGood, SaysAt, AskedAt;
    GateFollows(cfg, st, uses, k);
    SaysIs(cfg, st, uses, k, AllowAlwaysForTool);
    var now := After(cfg, st, uses, k + 1).gate;
    forall name
      ensures name in now.always <==> AllowedForGood(cfg, st, uses, k + 1, name)
    {
      AllowedNext(cfg, st, uses, k, name);
    }
  }

  /** The user's answers make the always-allow set, and every question is counted. */
  lemma {:induction false} GateIs(cfg: Config, st: State, uses: seq<RecordedToolUse>, n: nat)
    requires n <= |uses|
    ensures GateAgrees(cfg, st, uses, n)
  {
    if n > 0 {
      var k := n - 1;
      GateIs(cfg, st, uses, k);
      GateMoves(cfg, st, uses, k);
    }
  }

  /** A call changes the world exactly if it is permitted, its tool is registered and changes it. */
  lemma {:induction false} ChangesIff(cfg: Config, st: State, uses: seq<RecordedToolUse>, k: nat)
    requires k < |uses|
    ensures var was, now := After(cfg, st, uses, k).world, After(cfg, st, uses, k + 1).world;
            && (now != was <==>
                  && Permitted(cfg, st, uses, k) && cfg.registered(uses[k].name)
                  && cfg.tool(uses[k], was).0 != was)
            && (now != was ==> now == cfg.tool(uses[k], was).0)
  {
    hide Decide, Permitted;
    GateIs(cfg, st, uses, k);
    VerdictIs(cfg, st, uses, k);
  }

  /** The result bears the call's id and its report, and is an error unless the tool gives output. */
  lemma {:induction false} ResultIs(cfg: Config, st: State, uses: seq<RecordedToolUse>, k: nat)
    requires k < |uses|
    ensures var report := Report(cfg, st, uses, k);
            ResultOf(cfg, st, uses, k)
            == RecordedToolResult(uses[k].id, cfg.render(uses[k], report), !report.Output?)
  {
    hide Decide, SaysAt, AllowedForGood;
    GateIs(cfg, st, uses, k);
    VerdictIs(cfg, st, uses, k);
  }

  /** The hook before a call speaks if the call is permitted, the hook behind it unless policy rejects the call. */
  lemma {:induction false} RemindersAre(cfg: Config, st: State, uses: seq<RecordedToolUse>, k: nat)
    requires k < |uses|
    ensures var result := ResultOf(cfg, st, uses, k);
            After(cfg, st, uses, k + 1).reminders
            == After(cfg, st, uses, k).reminders
               + (if Permitted(cfg, st, uses, k) then cfg.preHook(uses[k]) else [])
               + (if PassesPolicy(cfg, uses[k]) then cfg.postHook(uses[k], result.content, result.isError) else [])
  {
    hide Decide, Permitted;
    GateIs(cfg, st, uses, k);
    VerdictIs(cfg, st, uses, k);
  }

  // ----- Every schedule -----

  /** No schedule lets a call change the world that is not permitted, in any mode and whatever the tools do. */
  lemma {:induction false} NoUnpermittedChange(cfg: Config, st: State, uses: seq<RecordedToolUse>,
                                               schedule: seq<Event>, k: nat)
    requires Exec(cfg, uses, st, schedule).Some? && Enabled(cfg, uses, Exec(cfg, uses, st, schedule).value, Run(k))
    requires var b := Exec(cfg, uses, st, schedule).value; Step(cfg, uses, b, Run(k)).st.world != b.st.world
    ensures k < |uses| && Permitted(cfg, st, uses, k) && cfg.registered(uses[k].name)
  {
    hide Decide, Permitted;
    EveryScheduleIsInShape(cfg, st, uses, schedule);
    var b := Exec(cfg, uses, st, schedule).value;
    assert SlotFits(cfg, st, uses, Starts(schedule), k, b.slots[k]);
    GateIs(cfg, st, uses, k);
    VerdictIs(cfg, st, uses, k);
  }

  predicate OnlyReads(cfg: Config, tu: RecordedToolUse) {
    tu.name in READING_TOOLS || (tu.name == Bash && cfg.readonlyBash(tu.input))
  }

  /** Some schedule has both calls under way. */
  ghost predicate MayOverlap(cfg: Config, st: State, uses: seq<RecordedToolUse>, j: nat, k: nat)
    requires j < |uses| && k < |uses|
  {
    exists schedule :: BothInFlight(Exec(cfg, uses, st, schedule), j, k)
  }

  predicate BothInFlight(b: Option<Batch>, j: nat, k: nat) {
    b.Some? && j < |b.value.slots| && k < |b.value.slots| && InFlight(b.value.slots[j]) && InFlight(b.value.slots[k])
  }

  lemma {:induction false} BatchIsReading(cfg: Config, uses: seq<RecordedToolUse>, j: nat, k: nat)
    requires j <= k < |uses|
    ensures SameBatch(cfg, uses, j, k) <==>
            !cfg.parallelDisabled && forall i :: j <= i <= k ==> OnlyReads(cfg, uses[i])
  {
    forall i | j <= i <= k
      ensures CanRunParallel(cfg, uses[i]) <==> OnlyReads(cfg, uses[i])
    {
      Tables(uses[i].name);
    }
  }

  /** Two calls may overlap exactly if policy rejects neither and all calls from one to the other only read. */
  lemma {:induction false} MayOverlapIff(cfg: Config, st: State, uses: seq<RecordedToolUse>, j: nat, k: nat)
    requires j < k < |uses|
    ensures MayOverlap(cfg, st, uses, j, k) <==>
            && PassesPolicy(cfg, uses[j]) && PassesPolicy(cfg, uses[k]) && !cfg.parallelDisabled
            && forall i :: j <= i <= k ==> OnlyReads(cfg, uses[i])
  {
    hide PassesPolicy, OnlyReads;
    BatchIsReading(cfg, uses, j, k);
    GateIs(cfg, st, uses, j);
    GateIs(cfg, st, uses, k);
    VerdictIs(cfg, st, uses, j);
    VerdictIs(cfg, st, uses, k);
    if MayOverlap(cfg, st, uses, j, k) {
      var schedule :| BothInFlight(Exec(cfg, uses, st, schedule), j, k);
      OverlapMeans(cfg, st, uses, j, k, schedule);
    }
    if PassesPolicy(cfg, uses[j]) && PassesPolicy(cfg, uses[k]) && SameBatch(cfg, uses, j, k) {
      var schedule := StartTogether(cfg, st, uses, j, k + 1);
      assert BothInFlight(Exec(cfg, uses, st, schedule), j, k);
    }
  }

  lemma {:induction false} OverlapMeans(cfg: Config, st: State, uses: seq<RecordedToolUse>, j: nat, k: nat,
                                        schedule: seq<Event>)
    requires j < k < |uses| && BothInFlight(Exec(cfg, uses, st, schedule), j, k)
    ensures SameBatch(cfg, uses, j, k)
    ensures !VerdictOf(cfg, st, uses, j).Rejected? && !VerdictOf(cfg, st, uses, k).Rejected?
  {
    hide VerdictOf;
    EveryScheduleIsInShape(cfg, st, uses, schedule);
    var b, m := Exec(cfg, uses, st, schedule).value, Starts(schedule);
    assert SlotFits(cfg, st, uses, m, k, b.slots[k]) && SlotFits(cfg, st, uses, m, j, b.slots[j]);
    assert SameBatch(cfg, uses, j, m - 1);
  }

  /** The calls before `j` are done, and those from `j` up to `m` have started. */
  ghost predicate Opened(cfg: Config, st: State, uses: seq<RecordedToolUse>, j: nat, m: nat, b: Option<Batch>) {
    && b.Some? && |b.value.slots| == |uses|
    && forall i :: 0 <= i < |uses| ==> OpenedAt(cfg, st, uses, j, m, b.value.slots[i], i)
  }

  ghost predicate OpenedAt(cfg: Config, st: State, uses: seq<RecordedToolUse>, j: nat, m: nat, slot: Slot, i: nat)
    requires i < |uses|
  {
    if i < j then slot.Done?
    else if i < m then
      if VerdictOf(cfg, st, uses, i).Rejected? then slot.Done? else slot == Started(VerdictOf(cfg, st, uses, i))
    else slot.Idle?
  }

  lemma {:induction false} StartOne(cfg: Config, st: State, uses: seq<RecordedToolUse>, j: nat, k: nat,
                                    before: seq<Event>)
    returns (schedule: seq<Event>)
    requires j <= k < |uses| && (k > j ==> SameBatch(cfg, uses, j, k))
    requires Opened(cfg, st, uses, j, k, Exec(cfg, uses, st, before))
    ensures Opened(cfg, st, uses, j, k + 1, Exec(cfg, uses, st, schedule))
  {
    var b, started := Exec(cfg, uses, st, before).value, Starts(before);
    forall i | 0 <= i < k
      ensures !b.slots[i].Idle? && (b.slots[i].Done? || SameBatch(cfg, uses, i, k))
    {
      assert OpenedAt(cfg, st, uses, j, k, b.slots[i], i);
    }
    assert OpenedAt(cfg, st, uses, j, k, b.slots[k], k);
    hide VerdictOf, Decide, CanRunParallel, SameBatch;
    EveryScheduleIsInShape(cfg, st, uses, before);
    assert Enabled(cfg, uses, b, Start(k));
    StepStaysInShape(cfg, st, uses, started, b, Start(k));
    StartVerdict(cfg, st, uses, started, b);
    ExecSnoc(cfg, uses, st, before, Start(k));
    schedule := before + [Start(k)];
    var now := Exec(cfg, uses, st, schedule).value;
    forall i | 0 <= i < |uses|
      ensures OpenedAt(cfg, st, uses, j, k + 1, now.slots[i], i)
    {
      assert OpenedAt(cfg, st, uses, j, k, b.slots[i], i);
    }
  }

  lemma {:induction false} FinishOne(cfg: Config, st: State, uses: seq<RecordedToolUse>, k: nat, before: seq<Event>)
    returns (schedule: seq<Event>)
    requires k < |uses| && Opened(cfg, st, uses, k, k + 1, Exec(cfg, uses, st, before))
    ensures Opened(cfg, st, uses, k + 1, k + 1, Exec(cfg, uses, st, schedule))
  {
    hide VerdictOf;
    var b := Exec(cfg, uses, st, before).value;
    schedule := before;
    if b.slots[k].Started? {
      assert OpenedAt(cfg, st, uses, k, k + 1, b.slots[k], k);
      ExecSnoc(cfg, uses, st, before, Run(k));
      schedule := before + [Run(k)];
      ExecSnoc(cfg, uses, st, schedule, Finish(k));
      schedule := schedule + [Finish(k)];
    }
    var now := Exec(cfg, uses, st, schedule).value;
    forall i | 0 <= i < |uses|
      ensures OpenedAt(cfg, st, uses, k + 1, k + 1, now.slots[i], i)
    {
      assert OpenedAt(cfg, st, uses, k, k + 1, b.slots[i], i);
    }
  }

  lemma {:induction false} StartTogether(cfg: Config, st: State, uses: seq<RecordedToolUse>, j: nat, m: nat)
    returns (schedule: seq<Event>)
    requires j <= m <= |uses| && (m > j + 1 ==> SameBatch(cfg, uses, j, m - 1))
    ensures Opened(cfg, st, uses, j, m, Exec(cfg, uses, st, schedule))
    decreases m, j
  {
    hide VerdictOf;
    if m == 0 {
      schedule := [];
    } else if m == j {
      schedule := StartTogether(cfg, st, uses, j - 1, j);
      schedule := FinishOne(cfg, st, uses, j - 1, schedule);
    } else {
      schedule := StartTogether(cfg, st, uses, j, m - 1);
      schedule := StartOne(cfg, st, uses, j, m - 1, schedule);
    }
  }
}
