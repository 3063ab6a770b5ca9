/** Style resolution of dprint_plugin.cpp: merging options and deciding whether a configuration is valid. */
module Styles {
  datatype Option<T> = None | Some(value: T)

  /** A JSON value; numbers are taken after their cast to int64_t. */
  datatype Value = Null | Boolean(flag: bool) | Number(number: int) | Text(text: string) | Nested(fields: map<string,
    Value>) | Other

  type Options = map<string, Value>

  datatype Parsed = Malformed(message: string) | NotObject | Fields(fields: Options)

  datatype Diagnostic = Diagnostic(property: string, message: string)

  /** What clang-format and the JSON library compute; nothing is assumed about any of it. */
  datatype Clang<!Style> = Clang(
    llvmStyle: Style,
    parseJson: string -> Parsed,
    parseNumber: string -> Option<int>,
    parseConfiguration: Options -> (Style, Option<string>),
    withLanguage: (Style, string, string) -> Style,
    rewrite: (Style, string, nat, nat, string) -> Option<string>,
    optionsText: Options -> string,
    diagnosticsText: seq<Diagnostic> -> string)

  /** merge_object_options. */
  function Merge(source: Options, options: Options): (r: Options)
    ensures forall k {:trigger k in r} :: k in r <==> k in source || k in options
    ensures forall k {:trigger r[k]} :: k in r ==> r[k] == if k in source then source[k] else options[k]
  {
    options + source
  }

  /** parse_number_value. */
  function NumberOf<S>(lib: Clang<S>, v: Value): Option<int> {
    match v
    case Number(n) => Some(n)
    case Text(t) => lib.parseNumber(t)
    case _ => None
  }

  /** parse_bool_value. */
  function FlagOf(v: Value): Option<bool> {
    match v
    case Boolean(b) => Some(b)
    case Text(t) => if t == "true" then Some(true) else if t == "false" then Some(false) else None
    case _ => None
  }

  datatype Merged = Merged(options: Options, diagnostics: seq<Diagnostic>)

  /** take_number of merge_global_options. */
  function TakeNumber<S>(lib: Clang<S>, global: Options, globalKey: string, clangKey: string, m: Merged): Merged {
    if globalKey !in global || global[globalKey] == Null || clangKey in m.options then m
    else match NumberOf(lib, global[globalKey])
      case None => m.(diagnostics := m.diagnostics + [Diagnostic(globalKey, "Expected a number")])
      case Some(n) => m.(options := m.options[clangKey := Number(n)])
  }

  function TakeTabs(global: Options, m: Merged): Merged {
    if "useTabs" !in global || global["useTabs"] == Null || "UseTab" in m.options then m
    else match FlagOf(global["useTabs"])
      case None => m.(diagnostics := m.diagnostics + [Diagnostic("useTabs", "Expected a boolean")])
      case Some(b) => m.(options := m.options["UseTab" := Text(if b then "Always" else "Never")])
  }

  /** merge_global_options. */
  function MergeGlobal<S>(lib: Clang<S>, global: Options, options: Options): Merged {
    TakeTabs(global, TakeNumber(lib, global, "indentWidth", "IndentWidth",
      TakeNumber(lib, global, "lineWidth", "ColumnLimit", Merged(options, []))))
  }

  function Lower(c: char): char {
    if 'A' <= c <= 'Z' then c - 'A' + 'a' else c
  }

  predicate EqualsInsensitive(a: string, b: string) {
    |a| == |b| && forall i | 0 <= i < |a| :: Lower(a[i]) == Lower(b[i])
  }

  /** reject_filesystem_dependent_style's test. */
  predicate FilesystemDependent(options: Options) {
    && "BasedOnStyle" in options && options["BasedOnStyle"].Text?
    && (EqualsInsensitive(options["BasedOnStyle"].text, "file")
         || EqualsInsensitive(options["BasedOnStyle"].text, "InheritParentConfig"))
  }

  const FILESYSTEM_STYLE: Diagnostic := Diagnostic("BasedOnStyle",
    "Filesystem-dependent clang-format style discovery is not supported")

  datatype Resolved<Style> = Resolved(style: Style, resolved: Options, diagnostics: seq<Diagnostic>, valid: bool)

  /** The options before they are handed to clang-format. */
  function AllOptions<S>(lib: Clang<S>, plugin: Options, global: Options, over: Option<Options>): Merged {
    var own := Merge(plugin, map[]);
    var m := MergeGlobal(lib, global, if over.Some? then Merge(over.value, own) else own);
    if FilesystemDependent(m.options) then m.(diagnostics := m.diagnostics + [FILESYSTEM_STYLE]) else m
  }

  /** resolve_format_style. */
  function Resolve<S>(lib: Clang<S>, plugin: Options, global: Options, over: Option<Options>): Resolved<S> {
    var m := AllOptions(lib, plugin, global, over);
    if m.options == map[] then Resolved(lib.llvmStyle, m.options, m.diagnostics, true)
    else if m.diagnostics != [] then Resolved(lib.llvmStyle, m.options, m.diagnostics, false)
    else
      var (style, error) := lib.parseConfiguration(m.options);
      if error.Some? then Resolved(style, m.options, [Diagnostic("clangFormat", error.value)], false)
      else Resolved(style, m.options, [], true)
  }

  // what resolution means

  /** The global key that supplies a clang-format option when nothing more specific does. */
  function GlobalKey(key: string): Option<string> {
    if key == "ColumnLimit" then Some("lineWidth") else if key == "IndentWidth" then Some("indentWidth")
    else if key == "UseTab" then Some("useTabs") else None
  }

  /** What a global setting amounts to as a clang-format option: for tabs a boolean or its name, and otherwise a number
      or a text that reads as one. */
  function GlobalValue<S>(lib: Clang<S>, key: string, v: Value): Option<Value> {
    if key == "UseTab" then
      if v == Boolean(true) || v == Text("true") then Some(Text("Always"))
      else if v == Boolean(false) || v == Text("false") then Some(Text("Never"))
      else None
    else if v.Number? then Some(v)
    else if v.Text? && lib.parseNumber(v.text).Some? then Some(Number(lib.parseNumber(v.text).value))
    else None
  }

  /** A global setting, as the option `key`, when it is there and parses. */
  function FromGlobal<S>(lib: Clang<S>, global: Options, globalKey: string, key: string): Option<Value> {
    if globalKey in global && global[globalKey] != Null then GlobalValue(lib, key, global[globalKey]) else None
  }

  /** The option in force for a key: the override's, else the plugin's own, else the global setting's. */
  function InForce<S>(lib: Clang<S>, plugin: Options, global: Options, over: Option<Options>,
          key: string): Option<Value> {
    if over.Some? && key in over.value then Some(over.value[key])
    else if key in plugin then Some(plugin[key])
    else
      match GlobalKey(key)
      case None => None
      case Some(g) => FromGlobal(lib, global, g, key)
  }

  /** The options agree at this key. */
  ghost predicate SameOption(a: Options, b: Options, key: string) {
    (key in a <==> key in b) && (key in a ==> a[key] == b[key])
  }

  ghost predicate OptionIs(o: Options, key: string, v: Option<Value>) {
    if key in o then v == Some(o[key]) else v == None
  }

  lemma TakeNumberAt<S>(lib: Clang<S>, global: Options, globalKey: string, clangKey: string, m: Merged, key: string)
    requires clangKey != "UseTab"
    ensures var o := TakeNumber(lib, global, globalKey, clangKey, m).options;
      && (key != clangKey || key in m.options ==> SameOption(o, m.options, key))
      && (key == clangKey && key !in m.options ==> OptionIs(o, key, FromGlobal(lib, global, globalKey, clangKey)))
  {
  }

  lemma TakeTabsAt<S>(lib: Clang<S>, global: Options, m: Merged, key: string)
    ensures var o := TakeTabs(global, m).options;
      && (key != "UseTab" || key in m.options ==> SameOption(o, m.options, key))
      && (key == "UseTab" && key !in m.options ==> OptionIs(o, key, FromGlobal(lib, global, "useTabs", "UseTab")))
  {
  }

  lemma DistinctKeys()
    ensures "ColumnLimit" != "IndentWidth" && "ColumnLimit" != "UseTab" && "IndentWidth" != "UseTab"
  {
    assert "ColumnLimit"[0] != "IndentWidth"[0] && "ColumnLimit"[0] != "UseTab"[0] && "IndentWidth"[0] != "UseTab"[0];
  }

  lemma MergedAt<S>(lib: Clang<S>, global: Options, options: Options, key: string)
    ensures var o := MergeGlobal(lib, global, options).options;
      if key in options then SameOption(o, options, key)
      else OptionIs(o, key, match GlobalKey(key) case None => None case Some(g) => FromGlobal(lib, global, g, key))
  {
    hide TakeNumber, TakeTabs, FromGlobal;
    DistinctKeys();
    var m0 := Merged(options, []);
    var m1 := TakeNumber(lib, global, "lineWidth", "ColumnLimit", m0);
    var m2 := TakeNumber(lib, global, "indentWidth", "IndentWidth", m1);
    TakeNumberAt(lib, global, "lineWidth", "ColumnLimit", m0, key);
    TakeNumberAt(lib, global, "indentWidth", "IndentWidth", m1, key);
    TakeTabsAt(lib, global, m2, key);
  }

  lemma ResolvedOptions<S>(lib: Clang<S>, plugin: Options, global: Options, over: Option<Options>)
    ensures Resolve(lib, plugin, global, over).resolved ==
      MergeGlobal(lib, global, if over.Some? then Merge(over.value, Merge(plugin, map[]))
        else Merge(plugin, map[])).options
  {
    hide MergeGlobal, Merge, FilesystemDependent;
  }

  /** Overrides beat plugin options, which beat global settings. */
  lemma Precedence<S>(lib: Clang<S>, plugin: Options, global: Options, over: Option<Options>, key: string)
    ensures OptionIs(Resolve(lib, plugin, global, over).resolved, key, InForce(lib, plugin, global, over, key))
  {
    hide MergeGlobal, Resolve, GlobalKey, GlobalValue;
    ResolvedOptions(lib, plugin, global, over);
    MergedAt(lib, global, if over.Some? then Merge(over.value, Merge(plugin, map[])) else Merge(plugin, map[]), key);
  }

  /** A global setting that is there, is not overridden, and does not parse. */
  predicate BadGlobal<S>(lib: Clang<S>, plugin: Options, global: Options, over: Option<Options>, key: string) {
    && !(over.Some? && key in over.value) && key !in plugin
    && GlobalKey(key).Some? && GlobalKey(key).value in global && global[GlobalKey(key).value] != Null
    && GlobalValue(lib, key, global[GlobalKey(key).value]) == None
  }

  predicate AnyBadGlobal<S>(lib: Clang<S>, plugin: Options, global: Options, over: Option<Options>) {
    BadGlobal(lib, plugin, global, over, "ColumnLimit") || BadGlobal(lib, plugin, global, over, "IndentWidth")
      || BadGlobal(lib, plugin, global, over, "UseTab")
  }

  /** The global setting for `key` is there and wanted, and does not parse. */
  predicate Unusable<S>(lib: Clang<S>, options: Options, global: Options, globalKey: string, key: string) {
    key !in options && globalKey in global && global[globalKey] != Null
      && GlobalValue(lib, key, global[globalKey]) == None
  }

  lemma NumberDiagnosed<S>(lib: Clang<S>, global: Options, globalKey: string, clangKey: string, m: Merged)
    requires clangKey != "UseTab"
    ensures TakeNumber(lib, global, globalKey, clangKey, m).diagnostics == m.diagnostics +
      if Unusable(lib, m.options, global, globalKey, clangKey) then [Diagnostic(globalKey, "Expected a number")] else []
  {
  }

  lemma TabsDiagnosed<S>(lib: Clang<S>, global: Options, m: Merged)
    ensures TakeTabs(global, m).diagnostics == m.diagnostics +
      if Unusable(lib, m.options, global, "useTabs", "UseTab") then [Diagnostic("useTabs", "Expected a boolean")]
      else []
  {
  }

  /** One letter in either case, or the same character. */
  predicate Alike(a: char, b: char) {
    || a == b
    || ('A' <= a <= 'Z' && b as int == a as int + 32)
    || ('A' <= b <= 'Z' && a as int == b as int + 32)
  }

  predicate NamesAlike(a: string, b: string) {
    |a| == |b| && forall i | 0 <= i < |a| :: Alike(a[i], b[i])
  }

  /** The style to build on is to be looked for in files. */
  predicate RefersToFiles(o: Options) {
    && "BasedOnStyle" in o && o["BasedOnStyle"].Text?
    && (NamesAlike(o["BasedOnStyle"].text, "file") || NamesAlike(o["BasedOnStyle"].text, "InheritParentConfig"))
  }

  lemma LowerAlike(a: char, b: char)
    ensures Lower(a) == Lower(b) <==> Alike(a, b)
  {
  }

  lemma InsensitiveAlike(a: string, b: string)
    ensures EqualsInsensitive(a, b) <==> NamesAlike(a, b)
  {
    hide Lower, Alike;
    forall i | 0 <= i < |a| && i < |b| ensures Lower(a[i]) == Lower(b[i]) <==> Alike(a[i], b[i]) {
      LowerAlike(a[i], b[i]);
    }
  }

  lemma FilesReferred(o: Options)
    ensures FilesystemDependent(o) <==> RefersToFiles(o)
  {
    hide EqualsInsensitive, NamesAlike;
    if "BasedOnStyle" in o && o["BasedOnStyle"].Text? {
      InsensitiveAlike(o["BasedOnStyle"].text, "file");
      InsensitiveAlike(o["BasedOnStyle"].text, "InheritParentConfig");
    }
  }

  /** What is wrong with the settings, in order: the global ones that are wanted and do not parse, and a style to be
      looked for in files. */
  function Complaints<S>(lib: Clang<S>, plugin: Options, global: Options, over: Option<Options>,
          o: Options): seq<Diagnostic> {
    (if BadGlobal(lib, plugin, global, over, "ColumnLimit") then [Diagnostic("lineWidth", "Expected a number")] else [])
      + (if BadGlobal(lib, plugin, global, over, "IndentWidth") then [Diagnostic("indentWidth", "Expected a number")]
         else [])
      + (if BadGlobal(lib, plugin, global, over, "UseTab") then [Diagnostic("useTabs", "Expected a boolean")] else [])
      + (if RefersToFiles(o) then [FILESYSTEM_STYLE] else [])
  }

  /** A setting is bad when the options it would go into lack its key, and so do override and plugin. */
  lemma SameBad<S>(lib: Clang<S>, plugin: Options, global: Options, over: Option<Options>, options: Options,
          globalKey: string, key: string)
    requires GlobalKey(key) == Some(globalKey)
    requires key in options <==> key in plugin || (over.Some? && key in over.value)
    ensures Unusable(lib, options, global, globalKey, key) == BadGlobal(lib, plugin, global, over, key)
  {
    hide GlobalKey, GlobalValue;
  }

  lemma GlobalKeys()
    ensures GlobalKey("ColumnLimit") == Some("lineWidth") && GlobalKey("IndentWidth") == Some("indentWidth")
    ensures GlobalKey("UseTab") == Some("useTabs")
  {
    DistinctKeys();
  }

  /** What the global settings are reported for, where the options lack their keys. */
  lemma GlobalsDiagnosed<S>(lib: Clang<S>, global: Options, options: Options)
    ensures MergeGlobal(lib, global, options).diagnostics ==
      (if Unusable(lib, options, global, "lineWidth", "ColumnLimit") then [Diagnostic("lineWidth", "Expected a number")]
       else [])
        + (if Unusable(lib, options, global, "indentWidth", "IndentWidth") then
             [Diagnostic("indentWidth", "Expected a number")]
           else [])
        + (if Unusable(lib, options, global, "useTabs", "UseTab") then [Diagnostic("useTabs", "Expected a boolean")]
           else [])
  {
    hide TakeNumber, TakeTabs, GlobalValue, FromGlobal;
    DistinctKeys();
    var m0 := Merged(options, []);
    var m1 := TakeNumber(lib, global, "lineWidth", "ColumnLimit", m0);
    var m2 := TakeNumber(lib, global, "indentWidth", "IndentWidth", m1);
    NumberDiagnosed(lib, global, "lineWidth", "ColumnLimit", m0);
    NumberDiagnosed(lib, global, "indentWidth", "IndentWidth", m1);
    TabsDiagnosed(lib, global, m2);
    TakeNumberAt(lib, global, "lineWidth", "ColumnLimit", m0, "IndentWidth");
    TakeNumberAt(lib, global, "lineWidth", "ColumnLimit", m0, "UseTab");
    TakeNumberAt(lib, global, "indentWidth", "IndentWidth", m1, "UseTab");
  }

  lemma Complained<S>(lib: Clang<S>, plugin: Options, global: Options, over: Option<Options>)
    ensures var m := AllOptions(lib, plugin, global, over);
      m.diagnostics == Complaints(lib, plugin, global, over, m.options)
  {
    hide MergeGlobal, GlobalKey, FilesystemDependent, RefersToFiles, Unusable, BadGlobal;
    GlobalKeys();
    var own := Merge(plugin, map[]);
    var options := if over.Some? then Merge(over.value, own) else own;
    GlobalsDiagnosed(lib, global, options);
    SameBad(lib, plugin, global, over, options, "lineWidth", "ColumnLimit");
    SameBad(lib, plugin, global, over, options, "indentWidth", "IndentWidth");
    SameBad(lib, plugin, global, over, options, "useTabs", "UseTab");
    FilesReferred(MergeGlobal(lib, global, options).options);
  }

  /** o holds, for every key, the option in force. */
  ghost predicate AllInForce<S>(lib: Clang<S>, plugin: Options, global: Options, over: Option<Options>, o: Options) {
    forall key: string {:trigger InForce(lib, plugin, global, over, key)} ::
      OptionIs(o, key, InForce(lib, plugin, global, over, key))
  }

  /** What plugin options, global settings and an override come to: the options in force, the style they make, whether
      that is valid, and what is reported.  No option at all makes the LLVM style, and anything wrong with the
      settings keeps the options from being parsed. */
  ghost predicate ComesTo<S>(lib: Clang<S>, plugin: Options, global: Options, over: Option<Options>, o: Options,
          style: S, valid: bool, reported: seq<Diagnostic>) {
    var complaints := Complaints(lib, plugin, global, over, o);
    && AllInForce(lib, plugin, global, over, o)
    && (if o == map[] || complaints != [] then
          style == lib.llvmStyle && (valid <==> o == map[]) && reported == complaints
        else
          && style == lib.parseConfiguration(o).0 && (valid <==> lib.parseConfiguration(o).1 == None)
          && reported == match lib.parseConfiguration(o).1
               case None => []
               case Some(error) => [Diagnostic("clangFormat", error)])
  }

  /** Resolution comes to that, and to nothing else. */
  lemma ResolutionComesTo<S>(lib: Clang<S>, plugin: Options, global: Options, over: Option<Options>, o: Options,
          style: S, valid: bool, reported: seq<Diagnostic>)
    ensures ComesTo(lib, plugin, global, over, o, style, valid, reported) <==>
      Resolve(lib, plugin, global, over) == Resolved(style, o, reported, valid)
  {
    var r := Resolve(lib, plugin, global, over);
    ResolvedInForce(lib, plugin, global, over);
    ResolvedStyle(lib, plugin, global, over);
    if AllInForce(lib, plugin, global, over, o) { OneInForce(lib, plugin, global, over, o, r.resolved); }
    hide Resolve, AllInForce, Complaints;
  }

  lemma ResolvedInForce<S>(lib: Clang<S>, plugin: Options, global: Options, over: Option<Options>)
    ensures AllInForce(lib, plugin, global, over, Resolve(lib, plugin, global, over).resolved)
  {
    hide Resolve, InForce, OptionIs;
    forall key: string
      ensures OptionIs(Resolve(lib, plugin, global, over).resolved, key, InForce(lib, plugin, global, over, key))
    {
      Precedence(lib, plugin, global, over, key);
    }
  }

  lemma OneInForce<S>(lib: Clang<S>, plugin: Options, global: Options, over: Option<Options>, o: Options, o': Options)
    requires AllInForce(lib, plugin, global, over, o) && AllInForce(lib, plugin, global, over, o')
    ensures o == o'
  {
    hide InForce;
    forall key: string ensures (key in o <==> key in o') && (key in o ==> o[key] == o'[key]) {
      assert OptionIs(o, key, InForce(lib, plugin, global, over, key));
      assert OptionIs(o', key, InForce(lib, plugin, global, over, key));
    }
  }

  lemma ResolvedStyle<S>(lib: Clang<S>, plugin: Options, global: Options, over: Option<Options>)
    ensures var r := Resolve(lib, plugin, global, over);
      AllInForce(lib, plugin, global, over, r.resolved) ==>
        ComesTo(lib, plugin, global, over, r.resolved, r.style, r.valid, r.diagnostics)
  {
    hide AllInForce, Complaints, AllOptions;
    Complained(lib, plugin, global, over);
  }

  lemma WhenDiagnosed<S>(lib: Clang<S>, plugin: Options, global: Options, over: Option<Options>)
    ensures var m := AllOptions(lib, plugin, global, over);
      m.diagnostics != [] <==> AnyBadGlobal(lib, plugin, global, over) || FilesystemDependent(m.options)
  {
    hide AllOptions, BadGlobal, FilesystemDependent, RefersToFiles;
    Complained(lib, plugin, global, over);
    FilesReferred(AllOptions(lib, plugin, global, over).options);
  }

  /** Exactly when a configuration counts as valid, and when it does so in spite of a diagnostic: only if no option
      is left at all, so that the settings that did not parse were the only ones. */
  lemma WhenValid<S>(lib: Clang<S>, plugin: Options, global: Options, over: Option<Options>)
    ensures var r, m := Resolve(lib, plugin, global, over), AllOptions(lib, plugin, global, over);
      && (r.valid <==> m.options == map[] || (m.diagnostics == [] && lib.parseConfiguration(m.options).1.None?))
      && (r.valid && r.diagnostics != [] <==> m.options == map[] && AnyBadGlobal(lib, plugin, global, over))
  {
    WhenDiagnosed(lib, plugin, global, over);
  }

  /** So valid does not imply free of diagnostics. */
  lemma ValidButDiagnosed<S>(lib: Clang<S>)
    ensures var r := Resolve(lib, map[], map["useTabs" := Text("maybe")], None); r.valid && r.diagnostics != []
  {
    WhenValid(lib, map[], map["useTabs" := Text("maybe")], None);
  }
}
