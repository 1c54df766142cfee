/**
  From `models.toml` to what one summary call may spend: the file's entries
  resolved and validated (crates/rustykrab-agent/src/local_model.rs), applied
  to a harness profile and handed to the runner
  (crates/rustykrab-agent/src/harness.rs), and turned into budgets
  (crates/rustykrab-agent/src/compaction.rs).
 */
module CompactionBudget {
  import opened Common

  const DEFAULT_CONTEXT_WINDOW: nat := 131_072
  const MIN_CONTEXT_WINDOW: nat := 4_096
  const MAX_CONTEXT_WINDOW: nat := 262_144
  const SUMMARY_CAP_TOKENS: nat := 8_192
  const SUMMARY_OUTPUT_HEADROOM: nat := 1_024

  // ── models.toml ───────────────────────────────────────────────────────

  datatype LocalModel = LocalModel(
    contextWindow: nat,
    outputTokens: nat,
    temperature: Option<real>,
    topP: Option<real>,
    threshold: real,
    summaryWindow: Option<nat>)

  const BUILT_IN := LocalModel(DEFAULT_CONTEXT_WINDOW, 4_096, None, None, 0.85, None)

  datatype Entry = Entry(
    contextWindow: Option<nat>,
    outputTokens: Option<nat>,
    temperature: Option<real>,
    topP: Option<real>,
    threshold: Option<real>,
    summaryWindow: Option<nat>)

  const BLANK := Entry(None, None, None, None, None, None)

  function Or<T>(named: Option<T>, base: T): T {
    if named.Some? then named.value else base
  }

  function Else<T>(named: Option<T>, base: Option<T>): Option<T> {
    if named.Some? then named else base
  }

  /** `Entry::over`: what the entry names, and the base for the rest. */
  function Over(e: Entry, base: LocalModel): LocalModel {
    LocalModel(
      Or(e.contextWindow, base.contextWindow),
      Or(e.outputTokens, base.outputTokens),
      Else(e.temperature, base.temperature),
      Else(e.topP, base.topP),
      Or(e.threshold, base.threshold),
      Else(e.summaryWindow, base.summaryWindow))
  }

  datatype Problem = WindowOutside | OutputOutside | ThresholdOutside | SummaryOutside | SamplingOutside | EmptyTag

  predicate SamplingOk(v: Option<real>) {
    v.Some? ==> 0.0 <= v.value <= 2.0
  }

  function Validate(m: LocalModel): Option<Problem> {
    if !(MIN_CONTEXT_WINDOW <= m.contextWindow <= MAX_CONTEXT_WINDOW) then Some(WindowOutside)
    else if m.outputTokens == 0 || m.outputTokens >= m.contextWindow then Some(OutputOutside)
    else if !(0.0 <= m.threshold <= 1.0) then Some(ThresholdOutside)
    else if m.summaryWindow.Some? && !(m.contextWindow <= m.summaryWindow.value <= MAX_CONTEXT_WINDOW)
    then Some(SummaryOutside)
    else if !SamplingOk(m.temperature) || !SamplingOk(m.topP) then Some(SamplingOutside)
    else None
  }

  datatype File = File(default: Entry, models: map<string, Entry>)

  datatype LocalModels = LocalModels(default: LocalModel, models: map<string, LocalModel>)

  /** `blank` says which tags are only whitespace; `order` is the map's own order of its tags. */
  method FromToml(file: File, order: seq<string>, blank: set<string>) returns (r: Result<LocalModels, Problem>)
    requires forall tag :: tag in order <==> tag in file.models
    ensures var default := Over(file.default, BUILT_IN);
      r.Ok? <==> Validate(default).None?
                 && forall tag :: tag in file.models ==>
                      tag !in blank && Validate(Over(file.models[tag], default)).None?
    ensures var default := Over(file.default, BUILT_IN);
      r.Ok? ==> r.value.default == default && r.value.models.Keys == file.models.Keys
                && forall tag :: tag in file.models ==> r.value.models[tag] == Over(file.models[tag], default)
  {
    var default := Over(file.default, BUILT_IN);
    var problem := Validate(default);
    if problem.Some? { return Err(problem.value); }
    var models: map<string, LocalModel> := map[];
    for n := 0 to |order|
      invariant forall tag :: tag in models <==> tag in order[..n]
      invariant forall tag :: tag in models ==>
        tag in file.models && models[tag] == Over(file.models[tag], default)
        && tag !in blank && Validate(models[tag]).None?
    {
      var tag := order[n];
      assert tag in order;
      if tag in blank { return Err(EmptyTag); }
      var model := Over(file.models[tag], default);
      problem := Validate(model);
      if problem.Some? { return Err(problem.value); }
      models := models[tag := model];
    }
    assert order[..|order|] == order;
    assert models.Keys == file.models.Keys;
    return Ok(LocalModels(default, models));
  }

  /** The settings for `tag`: its own entry, else the default. */
  function ForTag(models: LocalModels, tag: string): LocalModel {
    if tag in models.models then models.models[tag] else models.default
  }

  /** The body the evaluation harness writes, as the table it parses to. */
  function TomlWithWindow(window: nat): File {
    var output := if window / 4 < BUILT_IN.outputTokens then Some(Max(window / 4, 1) as nat) else None;
    File(BLANK.(contextWindow := Some(window), outputTokens := output), map[])
  }

  /** That body loads for exactly the windows the daemon accepts, and names them. */
  lemma WindowBodyLoads(window: nat)
    ensures var m := Over(TomlWithWindow(window).default, BUILT_IN);
      && (Validate(m).None? <==> 4_096 <= window <= 262_144)
      && m.contextWindow == window
      && m.outputTokens == (if window < 4 then 1 else if window < 16_384 then window / 4 else 4_096)
      && (m.threshold, m.temperature, m.topP, m.summaryWindow) == (0.85, None, None, None)
  {
    var m := Over(TomlWithWindow(window).default, BUILT_IN);
    assert m.threshold == 0.85 && m.temperature == None && m.topP == None && m.summaryWindow == None;
    assert MIN_CONTEXT_WINDOW <= window ==> 0 < m.outputTokens < window;
  }

  /** A file that says nothing is the built-in settings, which load. */
  lemma {:induction false} EmptyFileLoads()
    ensures Over(BLANK, BUILT_IN) == LocalModel(131_072, 4_096, None, None, 0.85, None)
    ensures Validate(Over(BLANK, BUILT_IN)).None?
  {
  }

  /** What is accepted, bound by bound. */
  lemma {:induction false} ValidExactly(m: LocalModel)
    ensures Validate(m).None? <==>
      && 4_096 <= m.contextWindow <= 262_144
      && 1 <= m.outputTokens < m.contextWindow
      && 0.0 <= m.threshold <= 1.0
      && (m.summaryWindow.Some? ==> m.contextWindow <= m.summaryWindow.value <= 262_144)
      && (m.temperature.Some? ==> 0.0 <= m.temperature.value <= 2.0)
      && (m.topP.Some? ==> 0.0 <= m.topP.value <= 2.0)
  {
  }

  /** A setting an entry names is the entry's whatever the base, and any other is the base's whatever the entry. */
  lemma {:induction false} OverIsPerSetting(e: Entry, f: Entry, base: LocalModel, other: LocalModel)
    ensures e.contextWindow.Some? ==> Over(e, base).contextWindow == e.contextWindow.value
    ensures e.outputTokens.Some? ==> Over(e, base).outputTokens == e.outputTokens.value
    ensures e.threshold.Some? ==> Over(e, base).threshold == e.threshold.value
    ensures e.temperature.Some? ==> Over(e, base).temperature == e.temperature
    ensures e.topP.Some? ==> Over(e, base).topP == e.topP
    ensures e.summaryWindow.Some? ==> Over(e, base).summaryWindow == e.summaryWindow
    ensures Over(BLANK, base) == base
    ensures Over(f, Over(e, base)) == Over(Named(f, e), base)
  {
  }

  /** Two entries as one: what the first names, else what the second does. */
  function Named(f: Entry, e: Entry): Entry {
    Entry(
      Else(f.contextWindow, e.contextWindow),
      Else(f.outputTokens, e.outputTokens),
      Else(f.temperature, e.temperature),
      Else(f.topP, e.topP),
      Else(f.threshold, e.threshold),
      Else(f.summaryWindow, e.summaryWindow))
  }

  // ── the profile, the runner's configuration and the budgets ───────────

  datatype Profile = Profile(maxContext: nat, ceiling: nat, threshold: real, expandCtx: Option<nat>, maxIterations: nat)

  function ApplyTo(m: LocalModel, p: Profile): Profile {
    p.(maxContext := m.contextWindow,
       ceiling := m.contextWindow,
       threshold := m.threshold,
       expandCtx := m.summaryWindow)
  }

  datatype AgentConfig = AgentConfig(
    maxContext: nat,
    ceiling: nat,
    threshold: real,
    expandCtx: Option<nat>,
    maxIterations: nat)

  function ToAgentConfig(p: Profile): AgentConfig {
    AgentConfig(p.maxContext, p.ceiling, p.threshold, p.expandCtx, p.maxIterations)
  }

  datatype CompactionConfig = CompactionConfig(
    context: nat,
    summaryCap: nat,
    summaryOutput: nat,
    summaryInput: nat,
    expandCtx: Option<nat>)

  /** The window a summary call is served at. */
  function SummaryWindow(c: CompactionConfig): nat {
    Or(c.expandCtx, c.context)
  }

  /** `CompactionConfig::for_model`; half a window of at most 2^53 tokens is exact in binary floating point. */
  function ForModel(limit: Option<nat>, config: AgentConfig): CompactionConfig {
    var ceiling := Max(config.ceiling, 1);
    var context := Min(Or(limit, config.maxContext), ceiling);
    var cap := Max(Min(SUMMARY_CAP_TOKENS, context / 4), 1);
    var output := cap + SUMMARY_OUTPUT_HEADROOM;
    var window := Or(config.expandCtx, context);
    var room := if window >= output then window - output else 0;
    CompactionConfig(context, cap, output, Max(Min(window / 2, room), 512), config.expandCtx)
  }

  function Resolve(m: LocalModel, p: Profile, limit: Option<nat>): CompactionConfig {
    ForModel(limit, ToAgentConfig(ApplyTo(m, p)))
  }

  predicate Fits(c: CompactionConfig) {
    c.summaryInput + c.summaryOutput <= SummaryWindow(c)
  }

  /**
    For every accepted model, profile and provider limit: the context is
    within the configured window, and the summary call fits the window it is
    served at if and only if the file gives it one of its own, or the provider
    has no limit or one of at least 2,047 tokens.
   */
  lemma SummaryFitsExactlyWhen(m: LocalModel, p: Profile, limit: Option<nat>)
    requires Validate(m).None?
    ensures var c := Resolve(m, p, limit);
      && c.context <= m.contextWindow
      && (limit.Some? ==> c.context <= limit.value)
      && (Fits(c) <==> m.summaryWindow.Some? || limit.None? || limit.value >= 2_047)
  {
    var c := Resolve(m, p, limit);
    if m.summaryWindow.Some? {
      assert c.summaryCap <= SummaryWindow(c) / 4;
      assert 2 * (SummaryWindow(c) / 2) <= SummaryWindow(c);
    }
  }

  /**
    The budgets are as large as they may be: the context the smaller of limit
    and window; the summary at most 8,192 tokens and a quarter of the context,
    but at least one; 1,024 more to write it in; and the input at most half
    the window it is served at, what that leaves beside the output, but at
    least 512. Nothing else of the profile changes them.
   */
  lemma {:induction false} BudgetsAreLargest(m: LocalModel, p: Profile, limit: Option<nat>)
    requires Validate(m).None?
    ensures var c := Resolve(m, p, limit);
      var window := if m.summaryWindow.Some? then m.summaryWindow.value else c.context;
      && c.context == (if limit.Some? && limit.value < m.contextWindow then limit.value else m.contextWindow)
      && c.expandCtx == m.summaryWindow
      && 1 <= c.summaryCap <= 8_192 && (c.summaryCap > 1 ==> 4 * c.summaryCap <= c.context)
      && (c.summaryCap == 8_192 || 4 * (c.summaryCap + 1) > c.context)
      && c.summaryOutput == c.summaryCap + 1_024
      && c.summaryInput >= 512
      && (c.summaryInput > 512 ==> 2 * c.summaryInput <= window && c.summaryInput + c.summaryOutput <= window)
      && (2 * (c.summaryInput + 1) > window || c.summaryInput + 1 + c.summaryOutput > window)
  {
  }

  /** So with no provider limit, or one of at least 2,048 tokens, it fits, in a summary of at most a quarter. */
  lemma SummaryFits(m: LocalModel, p: Profile, limit: Option<nat>)
    requires Validate(m).None? && (limit.Some? ==> limit.value >= 2_048)
    ensures var c := Resolve(m, p, limit);
      Fits(c) && 4 * c.summaryCap <= c.context <= m.contextWindow && c.summaryInput >= 512
  {
    SummaryFitsExactlyWhen(m, p, limit);
  }

  /** And so for every model of every file that loads. */
  lemma EveryModelFits(file: File, models: LocalModels, tag: string, p: Profile, limit: Option<nat>)
    requires models.default == Over(file.default, BUILT_IN) && Validate(models.default).None?
    requires models.models.Keys == file.models.Keys
    requires forall t :: t in file.models ==>
      models.models[t] == Over(file.models[t], models.default) && Validate(models.models[t]).None?
    requires limit.Some? ==> limit.value >= 2_048
    ensures Fits(Resolve(ForTag(models, tag), p, limit))
    ensures ForTag(models, tag) == Over(if tag in file.models then file.models[tag] else BLANK, models.default)
  {
    SummaryFits(ForTag(models, tag), p, limit);
  }
}
