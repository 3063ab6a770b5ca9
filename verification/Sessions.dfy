/** What the exported calls of dprint_plugin.cpp mean: a session as a value, and one step per call. */
module Sessions {
  import opened Styles

  datatype Entry<S> = Entry(plugin: Options, global: Options, style: S, resolvedJson: string, diagnosticsJson: string,
    valid: bool)

  /** The statics of the plugin, the config vector as the finite map it stands for. */
  datatype Session<S> = Session(shared: string, registry: map<nat, Entry<S>>, path: string, over: string, text: string,
    error: string)

  /** The exported calls.  GetConstant stands for get_plugin_info, get_license_text, get_config_file_matching and
      check_config_updates, each with a text of its own. */
  datatype Call =
    | Fill(bytes: string)
    | Register(id: nat)
    | Release(id: nat)
    | SetFilePath
    | SetOverride
    | Format(id: nat)
    | FormatRange(id: nat, start: nat, end: nat)
    | GetText
    | GetError
    | GetDiagnostics(id: nat)
    | GetResolved(id: nat)
    | GetConstant(text: string)

  predicate Formats(c: Call) { c.Format? || c.FormatRange? }

  const NO_CONFIG: Diagnostic := Diagnostic("plugin", "Missing plugin config object")

  function ObjectAt(fields: Options, key: string): Option<Options> {
    if key in fields && fields[key].Nested? then Some(fields[key].fields) else None
  }

  /** The entry register_config stores for a payload. */
  function EntryFor<S>(lib: Clang<S>, payload: string): Entry<S> {
    match lib.parseJson(payload)
    case Malformed(message) =>
      Entry(map[], map[], lib.llvmStyle, "{}", lib.diagnosticsText([Diagnostic("clangFormat", message)]), false)
    case NotObject =>
      Entry(map[], map[], lib.llvmStyle, "{}",
        lib.diagnosticsText([Diagnostic("clangFormat", "Expected a config object")]), false)
    case Fields(root) =>
      var plugin := match ObjectAt(root, "plugin") case Some(o) => o case None => map[];
      var global := match ObjectAt(root, "global") case Some(o) => o case None => map[];
      var r := Resolve(lib, plugin, global, None);
      Entry(plugin, global, r.style, lib.optionsText(r.resolved), lib.diagnosticsText(r.diagnostics), r.valid)
  }

  ghost predicate NotAboutPlugin(ds: seq<Diagnostic>) {
    forall d {:trigger d in ds} :: d in ds ==> |d.property| != 6
  }

  lemma NumberNotAboutPlugin<S>(lib: Clang<S>, global: Options, globalKey: string, clangKey: string, m: Merged)
    requires NotAboutPlugin(m.diagnostics) && |globalKey| != 6
    ensures NotAboutPlugin(TakeNumber(lib, global, globalKey, clangKey, m).diagnostics)
  {
  }

  lemma TabsNotAboutPlugin(global: Options, m: Merged)
    requires NotAboutPlugin(m.diagnostics)
    ensures NotAboutPlugin(TakeTabs(global, m).diagnostics)
  {
  }

  lemma MergedNotAboutPlugin<S>(lib: Clang<S>, global: Options, options: Options)
    ensures NotAboutPlugin(MergeGlobal(lib, global, options).diagnostics)
  {
    hide TakeNumber, TakeTabs;
    var m0 := Merged(options, []);
    var m1 := TakeNumber(lib, global, "lineWidth", "ColumnLimit", m0);
    var m2 := TakeNumber(lib, global, "indentWidth", "IndentWidth", m1);
    NumberNotAboutPlugin(lib, global, "lineWidth", "ColumnLimit", m0);
    NumberNotAboutPlugin(lib, global, "indentWidth", "IndentWidth", m1);
    TabsNotAboutPlugin(global, m2);
  }

  lemma NoPluginDiagnostic<S>(lib: Clang<S>, plugin: Options, global: Options, over: Option<Options>)
    ensures NotAboutPlugin(Resolve(lib, plugin, global, over).diagnostics)
  {
    hide MergeGlobal, FilesystemDependent, Merge;
    MergedNotAboutPlugin(lib, global, if over.Some? then Merge(over.value, Merge(plugin, map[])) else Merge(plugin,
      map[]));
  }

  /** A payload without a plugin object is treated as one with an empty object: the diagnostic that the parser notes
      for it is dropped, and no other names the property. */
  lemma MissingPluginUnreported<S>(lib: Clang<S>, payload: string, root: Options)
    requires lib.parseJson(payload) == Fields(root) && ObjectAt(root, "plugin") == None
    ensures var e := EntryFor(lib, payload);
      var r := Resolve(lib, map[], e.global, None);
      && e.plugin == map[] && e.valid == r.valid && e.diagnosticsJson == lib.diagnosticsText(r.diagnostics)
      && NO_CONFIG !in r.diagnostics
  {
    hide Resolve;
    NoPluginDiagnostic(lib, map[], EntryFor(lib, payload).global, None);
  }

  /** parse_override_payload. */
  function OverrideOptions<S>(lib: Clang<S>, json: string): Option<Options> {
    if json == "" then None
    else match lib.parseJson(json)
      case Fields(root) => Some(root)
      case _ => None
  }

  /** style_for_format. */
  function StyleFor<S>(lib: Clang<S>, e: Entry<S>, over: string, path: string, code: string): S {
    var r := Resolve(lib, e.plugin, e.global, OverrideOptions(lib, over));
    if !r.valid then e.style
    else if path != "" then lib.withLanguage(r.style, path, code)
    else r.style
  }

  datatype Outcome = Outcome(code: nat, text: string, error: string)

  /** format_inner, as a function of what it reads. */
  function FormatOutcome<S>(lib: Clang<S>, registry: map<nat, Entry<S>>, over: string, path: string, input: string,
          id: nat, start: nat, end: nat): Outcome {
    if start > end || end > |input| then Outcome(2, "", "invalid format range")
    else if id !in registry then Outcome(2, "", "unknown config id")
    else
      match lib.rewrite(StyleFor(lib, registry[id], over, path, input), input, start, end - start,
        if path == "" then "<stdin>" else path)
      case None => Outcome(2, "", "clang-format failed to apply replacements")
      case Some(result) => if result == input then Outcome(0, "", "") else Outcome(1, result, "")
  }

  /** normalize_file_path. */
  function Normalized(path: string): (r: string)
    ensures |r| == |path| && forall i :: 0 <= i < |r| ==> r[i] == if path[i] == '\\' then '/' else path[i]
  {
    seq(|path|, i requires 0 <= i < |path| => if path[i] == '\\' then '/' else path[i])
  }

  function AfterFormat<S>(lib: Clang<S>, s: Session<S>, id: nat, start: nat, end: nat): Session<S> {
    var o := FormatOutcome(lib, s.registry, s.over, s.path, s.shared, id, start, end);
    s.(shared := "", over := "", text := o.text, error := o.error)
  }

  /** The session after a call. */
  function Next<S>(lib: Clang<S>, s: Session<S>, c: Call): Session<S> {
    match c
    case Fill(bytes) => s.(shared := bytes)
    case Register(id) => s.(shared := "", registry := s.registry[id := EntryFor(lib, s.shared)])
    case Release(id) => s.(registry := s.registry - {id})
    case SetFilePath => s.(shared := "", path := Normalized(s.shared))
    case SetOverride => s.(shared := "", over := s.shared)
    case Format(id) => AfterFormat(lib, s, id, 0, |s.shared|)
    case FormatRange(id, start, end) => AfterFormat(lib, s, id, start, end)
    case GetText => s.(shared := s.text, text := "")
    case GetError => s.(shared := s.error, error := "")
    case GetDiagnostics(id) => s.(shared := if id in s.registry then s.registry[id].diagnosticsJson else "[]")
    case GetResolved(id) => s.(shared := if id in s.registry then s.registry[id].resolvedJson else "{}")
    case GetConstant(text) => s.(shared := text)
  }

  /** What a call returns: a status for the formatting calls, the number of shared bytes for the getters. */
  function Answer<S>(lib: Clang<S>, s: Session<S>, c: Call): nat {
    match c
    case Format(id) => FormatOutcome(lib, s.registry, s.over, s.path, s.shared, id, 0, |s.shared|).code
    case FormatRange(id, start, end) => FormatOutcome(lib, s.registry, s.over, s.path, s.shared, id, start, end).code
    case Fill(_) => 0
    case Register(_) => 0
    case Release(_) => 0
    case SetFilePath => 0
    case SetOverride => 0
    case _ => |Next(lib, s, c).shared|
  }

  function Empty<S>(): Session<S> { Session("", map[], "", "", "", "") }

  /** The session after a run. */
  function After<S>(lib: Clang<S>, s: Session<S>, calls: seq<Call>): Session<S> {
    if calls == [] then s else Next(lib, After(lib, s, calls[..|calls| - 1]), calls[|calls| - 1])
  }

  // what the calls do

  /** The object under a key of a payload, or an empty one. */
  ghost predicate Holds(root: Options, key: string, o: Options) {
    if key in root && root[key].Nested? then o == root[key].fields else o == map[]
  }

  /** What registering a payload stores: nothing but an error if it is no object; otherwise its plugin and global
      objects and what they come to. */
  ghost predicate Stored<S>(lib: Clang<S>, payload: string, e: Entry<S>) {
    match lib.parseJson(payload)
    case Malformed(message) => Unstored(lib, message, e)
    case NotObject => Unstored(lib, "Expected a config object", e)
    case Fields(root) =>
      && Holds(root, "plugin", e.plugin) && Holds(root, "global", e.global)
      && exists o: Options, reported: seq<Diagnostic> {:trigger lib.optionsText(o), lib.diagnosticsText(reported)} ::
          && ComesTo(lib, e.plugin, e.global, None, o, e.style, e.valid, reported)
          && e.resolvedJson == lib.optionsText(o) && e.diagnosticsJson == lib.diagnosticsText(reported)
  }

  ghost predicate Unstored<S>(lib: Clang<S>, message: string, e: Entry<S>) {
    && e.plugin == map[] && e.global == map[] && !e.valid && e.style == lib.llvmStyle && e.resolvedJson == "{}"
    && e.diagnosticsJson == lib.diagnosticsText([Diagnostic("clangFormat", message)])
  }

  lemma EntryStored<S>(lib: Clang<S>, payload: string)
    ensures Stored(lib, payload, EntryFor(lib, payload))
  {
    hide ComesTo, Resolve;
    match lib.parseJson(payload) {
      case Fields(root) =>
        var e := EntryFor(lib, payload);
        var r := Resolve(lib, e.plugin, e.global, None);
        ResolutionComesTo(lib, e.plugin, e.global, None, r.resolved, r.style, r.valid, r.diagnostics);
        assert lib.optionsText(r.resolved) == e.resolvedJson && lib.diagnosticsText(r.diagnostics) == e.diagnosticsJson;
      case _ =>
    }
  }

  /** register_config stores what the shared bytes say, under its id and no other. */
  lemma Registering<S>(lib: Clang<S>, s: Session<S>, id: nat)
    ensures var s' := Next(lib, s, Register(id));
      && id in s'.registry && Stored(lib, s.shared, s'.registry[id])
      && s'.registry - {id} == s.registry - {id} && s'.shared == ""
  {
    hide EntryFor, Stored;
    EntryStored(lib, s.shared);
  }

  /** The options an override stands for: none if there is no override, or it is not a JSON object. */
  ghost predicate OverrideIs<S>(lib: Clang<S>, over: string, o: Option<Options>) {
    o == if over != "" && lib.parseJson(over).Fields? then Some(lib.parseJson(over).fields) else None
  }

  /** The style a formatting call uses: what the entry and the override come to, in the language of the path if there
      is one; or the stored style, if they come to nothing valid. */
  ghost predicate Uses<S(!new)>(lib: Clang<S>, e: Entry<S>, over: string, path: string, code: string, style: S) {
    exists o: Option<Options>, all: Options, made: S, valid: bool, reported: seq<Diagnostic>
      {:trigger ComesTo(lib, e.plugin, e.global, o, all, made, valid, reported)} ::
      && OverrideIs(lib, over, o) && ComesTo(lib, e.plugin, e.global, o, all, made, valid, reported)
      && style == if !valid then e.style else if path == "" then made else lib.withLanguage(made, path, code)
  }

  lemma StyleUsed<S(!new)>(lib: Clang<S>, e: Entry<S>, over: string, path: string, code: string)
    ensures Uses(lib, e, over, path, code, StyleFor(lib, e, over, path, code))
  {
    hide ComesTo, Resolve;
    var o := OverrideOptions(lib, over);
    var r := Resolve(lib, e.plugin, e.global, o);
    ResolutionComesTo(lib, e.plugin, e.global, o, r.resolved, r.style, r.valid, r.diagnostics);
    assert ComesTo(lib, e.plugin, e.global, o, r.resolved, r.style, r.valid, r.diagnostics);
  }

  /** What formatting bytes [start, end) of the input under a config answers, and leaves as text and error. */
  ghost predicate Formatted<S(!new)>(lib: Clang<S>, s: Session<S>, id: nat, start: nat, end: nat, code: nat,
          text: string, error: string) {
    if !(start <= end <= |s.shared|) then code == 2 && text == "" && error == "invalid format range"
    else if id !in s.registry then code == 2 && text == "" && error == "unknown config id"
    else exists style: S {:trigger Uses(lib, s.registry[id], s.over, s.path, s.shared, style)} ::
      && Uses(lib, s.registry[id], s.over, s.path, s.shared, style)
      && match lib.rewrite(style, s.shared, start, end - start, if s.path == "" then "<stdin>" else s.path)
         case None => code == 2 && text == "" && error == "clang-format failed to apply replacements"
         case Some(result) =>
           error == "" && (if result == s.shared then code == 0 && text == "" else code == 1 && text == result)
  }

  /** format and format_range: what they answer and leave; the input and the override are used up, and nothing else is
      touched. */
  lemma Formatting<S(!new)>(lib: Clang<S>, s: Session<S>, c: Call)
    requires Formats(c)
    ensures var s', start, end := Next(lib, s, c), if c.Format? then 0 else c.start, if c.Format? then |s.shared|
      else c.end;
      && Formatted(lib, s, c.id, start, end, Answer(lib, s, c), s'.text, s'.error)
      && s'.shared == "" && s'.over == "" && s'.registry == s.registry && s'.path == s.path
  {
    hide StyleFor, Uses;
    if c.id in s.registry { StyleUsed(lib, s.registry[c.id], s.over, s.path, s.shared); }
  }

  /** What the host puts in the shared bytes is what the next call takes: the payload, the override, or the path. */
  lemma HandedOver<S>(lib: Clang<S>, s: Session<S>, bytes: string, id: nat)
    ensures var filled := Next(lib, s, Fill(bytes));
      var registered, path := Next(lib, filled, Register(id)), Next(lib, filled, SetFilePath).path;
      && id in registered.registry && Stored(lib, bytes, registered.registry[id])
      && Next(lib, filled, SetOverride) == s.(shared := "", over := bytes)
      && |path| == |bytes| && (forall i :: 0 <= i < |path| ==> path[i] == if bytes[i] == '\\' then '/' else bytes[i])
  {
    hide EntryFor, Stored, FormatOutcome;
    Registering(lib, Next(lib, s, Fill(bytes)), id);
  }

  // the registry over runs

  /** The last call about a config id. */
  function LastAbout(calls: seq<Call>, id: nat): Option<nat> {
    if calls == [] then None
    else
      var last := calls[|calls| - 1];
      if last == Register(id) || last == Release(id) then Some(|calls| - 1) else LastAbout(calls[..|calls| - 1], id)
  }

  /** A config id is known exactly when the last call about it registered it, and it then has the entry of that
      call's payload. */
  lemma {:induction false} RegistryIsLastRegistered<S>(lib: Clang<S>, calls: seq<Call>, id: nat)
    ensures match LastAbout(calls, id)
      case None => id !in After(lib, Empty(), calls).registry
      case Some(k) =>
        && k < |calls| && (id in After(lib, Empty(), calls).registry <==> calls[k] == Register(id))
        && (calls[k] == Register(id) ==>
              After(lib, Empty(), calls).registry[id] == EntryFor(lib, After(lib, Empty(), calls[..k]).shared))
  {
    if calls != [] {
      hide EntryFor, FormatOutcome, Normalized;
      var before := calls[..|calls| - 1];
      RegistryIsLastRegistered(lib, before, id);
      if LastAbout(before, id).Some? {
        assert before[..LastAbout(before, id).value] == calls[..LastAbout(before, id).value];
      }
      OtherCallsKeep(lib, After(lib, Empty(), before), calls[|calls| - 1], id);
    }
  }

  lemma OtherCallsKeep<S>(lib: Clang<S>, s: Session<S>, c: Call, id: nat)
    ensures var r := Next(lib, s, c).registry;
      && (c != Register(id) && c != Release(id) ==>
           (id in r <==> id in s.registry) && (id in r ==> r[id] == s.registry[id]))
      && (c == Register(id) ==> id in r && r[id] == EntryFor(lib, s.shared)) && (c == Release(id) ==> id !in r)
  {
    hide EntryFor, FormatOutcome, Normalized;
  }

  // overrides over runs

  /** The override a formatting call at the end of this run would use: the one set last, unless a formatting call
      came after it. */
  function InEffect<S>(lib: Clang<S>, calls: seq<Call>): string {
    if calls == [] then ""
    else
      var before, last := calls[..|calls| - 1], calls[|calls| - 1];
      if last.SetOverride? then After(lib, Empty<S>(), before).shared
      else if Formats(last) then "" else InEffect(lib, before)
  }

  lemma {:induction false} OverrideInEffect<S>(lib: Clang<S>, calls: seq<Call>)
    ensures After(lib, Empty(), calls).over == InEffect(lib, calls)
  {
    if calls != [] {
      hide EntryFor, FormatOutcome, Normalized;
      OverrideInEffect(lib, calls[..|calls| - 1]);
    }
  }

  /** A call that takes what is in the shared buffer. */
  predicate Consumes(c: Call) { c.Register? || c.SetFilePath? || c.SetOverride? || Formats(c) }

  /** Whether the shared buffer can hold an old result after this call. */
  predicate Stale(c: Call, stale: bool) {
    match c
    case GetText => true
    case GetError => true
    case Release(_) => stale
    case _ => false
  }

  predicate StaleAfter(calls: seq<Call>, stale: bool) {
    if calls == [] then stale else Stale(calls[|calls| - 1], StaleAfter(calls[..|calls| - 1], stale))
  }

  /** The host never passes an old result on as input: it fills the buffer anew after fetching one. */
  predicate Tidy(calls: seq<Call>, stale: bool) {
    calls == [] ||
      (Tidy(calls[..|calls| - 1], stale) && !(Consumes(calls[|calls| - 1]) && StaleAfter(calls[..|calls| - 1], stale)))
  }

  /** Two sessions that differ at most in results not yet fetched, or fetched and not yet written over. */
  ghost predicate SameButResults<S>(s: Session<S>, t: Session<S>, stale: bool) {
    t == s.(text := t.text, error := t.error, shared := t.shared) && (!stale ==> t.shared == s.shared)
  }

  /** Whichever exit a formatting call takes, it uses its override up: afterwards only its own result can tell which
      override there was. */
  lemma OverrideUsedUp<S>(lib: Clang<S>, s: Session<S>, over: string, c: Call)
    requires Formats(c)
    ensures SameButResults(Next(lib, s, c), Next(lib, s.(over := over), c), false) && Next(lib, s, c).over == ""
  {
    hide FormatOutcome;
  }

  lemma ResultsForgotten<S>(lib: Clang<S>, s: Session<S>, t: Session<S>, c: Call, stale: bool)
    requires SameButResults(s, t, stale) && !(Consumes(c) && stale)
    ensures SameButResults(Next(lib, s, c), Next(lib, t, c), Stale(c, stale))
    ensures Formats(c) ==> Next(lib, s, c) == Next(lib, t, c)
    ensures !c.GetText? && !c.GetError? ==> Answer(lib, s, c) == Answer(lib, t, c)
  {
    hide FormatOutcome, EntryFor, Normalized;
  }

  lemma {:induction false} KeptBetween<S>(lib: Clang<S>, s: Session<S>, t: Session<S>, calls: seq<Call>)
    requires SameButResults(s, t, false) && Tidy(calls, false)
    ensures SameButResults(After(lib, s, calls), After(lib, t, calls), StaleAfter(calls, false))
  {
    if calls != [] {
      hide Next, Answer, SameButResults, Stale, Consumes;
      var before, last := calls[..|calls| - 1], calls[|calls| - 1];
      KeptBetween(lib, s, t, before);
      ResultsForgotten(lib, After(lib, s, before), After(lib, t, before), last, StaleAfter(before, false));
    }
  }

  /** An override cannot reach past the next formatting call: whatever the host does in between, from the second
      formatting call on the session and the answers are the same with any other override in its place. */
  lemma OverrideReach<S>(lib: Clang<S>, s: Session<S>, over: string, first: Call, between: seq<Call>, second: Call)
    requires Formats(first) && Formats(second) && Tidy(between, false) && !StaleAfter(between, false)
    ensures var s1, t1 := After(lib, Next(lib, s, first), between), After(lib, Next(lib, s.(over := over), first),
      between);
      Next(lib, s1, second) == Next(lib, t1, second) && Answer(lib, s1, second) == Answer(lib, t1, second)
  {
    hide FormatOutcome, EntryFor, Normalized, Next, Answer, After, SameButResults;
    OverrideUsedUp(lib, s, over, first);
    KeptBetween(lib, Next(lib, s, first), Next(lib, s.(over := over), first), between);
    ResultsForgotten(lib, After(lib, Next(lib, s, first), between), After(lib, Next(lib, s.(over := over), first),
      between), second, false);
  }

  // results and the path over runs

  /** Which calls leave a text, and which an error, for the host to fetch, or fetch it. */
  predicate AboutText(c: Call) { Formats(c) || c.GetText? }

  predicate AboutError(c: Call) { Formats(c) || c.GetError? }

  lemma {:induction false} TextKept<S>(lib: Clang<S>, calls: seq<Call>, k: nat)
    requires k <= |calls| && forall j {:trigger calls[j]} :: k <= j < |calls| ==> !AboutText(calls[j])
    ensures After(lib, Empty(), calls).text == After(lib, Empty(), calls[..k]).text
    decreases |calls|
  {
    if k == |calls| {
      assert calls[..k] == calls;
    } else {
      hide EntryFor, FormatOutcome, Normalized;
      var before := calls[..|calls| - 1];
      TextKept(lib, before, k);
      assert before[..k] == calls[..k];
      assert !AboutText(calls[|calls| - 1]);
    }
  }

  lemma {:induction false} ErrorKept<S>(lib: Clang<S>, calls: seq<Call>, k: nat)
    requires k <= |calls| && forall j {:trigger calls[j]} :: k <= j < |calls| ==> !AboutError(calls[j])
    ensures After(lib, Empty(), calls).error == After(lib, Empty(), calls[..k]).error
    decreases |calls|
  {
    if k == |calls| {
      assert calls[..k] == calls;
    } else {
      hide EntryFor, FormatOutcome, Normalized;
      var before := calls[..|calls| - 1];
      ErrorKept(lib, before, k);
      assert before[..k] == calls[..k];
      assert !AboutError(calls[|calls| - 1]);
    }
  }

  /** get_formatted_text delivers what the last formatting call left, once: nothing if it was fetched since, or if
      there was no such call. */
  lemma TextFetched<S>(lib: Clang<S>, calls: seq<Call>, k: nat)
    requires k <= |calls| && forall j {:trigger calls[j]} :: k <= j < |calls| ==> !AboutText(calls[j])
    requires k == 0 || AboutText(calls[k - 1])
    ensures var s := After(lib, Empty(), calls);
      && Next(lib, s, GetText).shared == (if k > 0 && Formats(calls[k - 1]) then After(lib, Empty(), calls[..k]).text
           else "")
      && Answer(lib, s, GetText) == |Next(lib, s, GetText).shared|
      && Next(lib, s, GetText) == s.(shared := Next(lib, s, GetText).shared, text := "")
  {
    TextKept(lib, calls, k);
    if k == 0 {
      assert calls[..0] == [];
    } else if !Formats(calls[k - 1]) {
      assert calls[..k][..k - 1] == calls[..k - 1] && calls[..k][k - 1] == calls[k - 1];
      assert After(lib, Empty(), calls[..k]) == Next(lib, After(lib, Empty(), calls[..k - 1]), GetText);
    }
  }

  /** get_error_text does the same for the error. */
  lemma ErrorFetched<S>(lib: Clang<S>, calls: seq<Call>, k: nat)
    requires k <= |calls| && forall j {:trigger calls[j]} :: k <= j < |calls| ==> !AboutError(calls[j])
    requires k == 0 || AboutError(calls[k - 1])
    ensures var s := After(lib, Empty(), calls);
      && Next(lib, s, GetError).shared == (if k > 0 && Formats(calls[k - 1]) then After(lib, Empty(), calls[..k]).error
           else "")
      && Answer(lib, s, GetError) == |Next(lib, s, GetError).shared|
      && Next(lib, s, GetError) == s.(shared := Next(lib, s, GetError).shared, error := "")
  {
    ErrorKept(lib, calls, k);
    if k == 0 {
      assert calls[..0] == [];
    } else if !Formats(calls[k - 1]) {
      assert calls[..k][..k - 1] == calls[..k - 1] && calls[..k][k - 1] == calls[k - 1];
      assert After(lib, Empty(), calls[..k]) == Next(lib, After(lib, Empty(), calls[..k - 1]), GetError);
    }
  }

  /** The path in effect is the one set last, with slashes for backslashes. */
  lemma {:induction false} PathInEffect<S>(lib: Clang<S>, calls: seq<Call>, k: nat)
    requires k <= |calls| && forall j {:trigger calls[j]} :: k <= j < |calls| ==> !calls[j].SetFilePath?
    requires k == 0 || calls[k - 1].SetFilePath?
    ensures var path := After(lib, Empty(), calls).path;
      if k == 0 then path == ""
      else
        var given := After(lib, Empty(), calls[..k - 1]).shared;
        |path| == |given| && forall i :: 0 <= i < |path| ==> path[i] == if given[i] == '\\' then '/' else given[i]
    decreases |calls|
  {
    hide EntryFor, FormatOutcome;
    if k < |calls| {
      var before := calls[..|calls| - 1];
      PathInEffect(lib, before, k);
      assert k > 0 ==> before[..k - 1] == calls[..k - 1];
      assert !calls[|calls| - 1].SetFilePath?;
    }
  }

  /** What the getters of a config deliver: what the payload registered last under the id came to, or the text for no
      config. */
  lemma ConfigFetched<S(!new)>(lib: Clang<S>, calls: seq<Call>, id: nat)
    ensures var s := After(lib, Empty(), calls);
      var resolved, reported := Next(lib, s, GetResolved(id)), Next(lib, s, GetDiagnostics(id));
      && resolved == s.(shared := resolved.shared) && reported == s.(shared := reported.shared)
      && Answer(lib, s, GetResolved(id)) == |resolved.shared|
      && Answer(lib, s, GetDiagnostics(id)) == |reported.shared|
      && match LastAbout(calls, id)
         case None => resolved.shared == "{}" && reported.shared == "[]"
         case Some(k) => (
           && k < |calls|
           && (if calls[k] != Register(id) then resolved.shared == "{}" && reported.shared == "[]"
               else exists e: Entry<S> {:trigger e.resolvedJson} ::
                 && Stored(lib, After(lib, Empty(), calls[..k]).shared, e)
                 && resolved.shared == e.resolvedJson && reported.shared == e.diagnosticsJson))
  {
    hide EntryFor, Stored, FormatOutcome;
    RegistryIsLastRegistered(lib, calls, id);
    var s := After(lib, Empty(), calls);
    match LastAbout(calls, id) {
      case Some(k) => EntryStored(lib, After(lib, Empty(), calls[..k]).shared);
      case None =>
    }
  }
}
