/** The statics of dprint_plugin.cpp and the exported calls that update them. */
module Plugins {
  import opened Styles
  import opened Sessions

  datatype Config<S> = Config(id: nat, entry: Entry<S>)

  /** The map a config vector stands for. */
  ghost function Registry<S>(configs: seq<Config<S>>): map<nat, Entry<S>> {
    if configs == [] then map[]
      else Registry(configs[..|configs| - 1])[configs[|configs| - 1].id := configs[|configs| - 1].entry]
  }

  ghost predicate UniqueIds<S>(configs: seq<Config<S>>) {
    forall i, j {:trigger configs[i], configs[j]} :: 0 <= i < j < |configs| ==> configs[i].id != configs[j].id
  }

  lemma {:induction false} RegistryAt<S>(configs: seq<Config<S>>, id: nat)
    requires UniqueIds(configs)
    ensures forall i {:trigger configs[i]} :: 0 <= i < |configs| && configs[i].id == id ==>
      id in Registry(configs) && Registry(configs)[id] == configs[i].entry
    ensures (forall i {:trigger configs[i]} :: 0 <= i < |configs| ==> configs[i].id != id) ==> id !in Registry(configs)
  {
    if configs != [] {
      var before := configs[..|configs| - 1];
      RegistryAt(before, id);
      assert forall i :: 0 <= i < |before| ==> before[i] == configs[i];
    }
  }

  lemma RegistrySet<S>(configs: seq<Config<S>>, i: nat, entry: Entry<S>)
    requires UniqueIds(configs) && i < |configs|
    ensures var updated := configs[i := Config(configs[i].id, entry)];
      UniqueIds(updated) && Registry(updated) == Registry(configs)[configs[i].id := entry]
  {
    var updated := configs[i := Config(configs[i].id, entry)];
    forall id: nat ensures (id in Registry(updated) <==> id in Registry(configs)[configs[i].id := entry])
        && (id in Registry(updated) ==> Registry(updated)[id] == Registry(configs)[configs[i].id := entry][id])
    {
      SameAtId(configs, updated, i, entry, id);
    }
  }

  lemma SameAtId<S>(configs: seq<Config<S>>, updated: seq<Config<S>>, i: nat, entry: Entry<S>, id: nat)
    requires UniqueIds(configs) && i < |configs| && updated == configs[i := Config(configs[i].id, entry)]
    ensures UniqueIds(updated)
    ensures id in Registry(updated) <==> id in Registry(configs)[configs[i].id := entry]
    ensures id in Registry(updated) ==> Registry(updated)[id] == Registry(configs)[configs[i].id := entry][id]
  {
    hide Registry;
    RegistryAt(configs, id);
    RegistryAt(updated, id);
    if j: nat :| j < |configs| && configs[j].id == id {
      assert updated[j].id == id;
    } else {
      assert forall j :: 0 <= j < |updated| ==> updated[j].id != id;
    }
  }

  lemma RegistryErased<S>(configs: seq<Config<S>>, i: nat)
    requires UniqueIds(configs) && i < |configs|
    ensures var rest := configs[..i] + configs[i + 1..];
      UniqueIds(rest) && Registry(rest) == Registry(configs) - {configs[i].id}
  {
    var rest := configs[..i] + configs[i + 1..];
    assert UniqueIds(rest);
    forall id: nat
      ensures (id in Registry(rest) <==> id in Registry(configs) - {configs[i].id})
      ensures (id in Registry(rest) ==> Registry(rest)[id] == Registry(configs)[id])
    {
      ErasedAtId(configs, rest, i, id);
    }
  }

  lemma ErasedAtId<S>(configs: seq<Config<S>>, rest: seq<Config<S>>, i: nat, id: nat)
    requires UniqueIds(configs) && UniqueIds(rest) && i < |configs| && rest == configs[..i] + configs[i + 1..]
    ensures (id in Registry(rest) <==> id in Registry(configs) - {configs[i].id})
    ensures (id in Registry(rest) ==> Registry(rest)[id] == Registry(configs)[id])
  {
    hide Registry;
    RegistryAt(configs, id);
    RegistryAt(rest, id);
    assert forall k {:trigger rest[k]} {:trigger configs[k]} :: 0 <= k < i ==> rest[k] == configs[k];
    assert forall k {:trigger configs[k]} :: i < k < |configs| ==> rest[k - 1] == configs[k];
    assert forall k {:trigger rest[k]} :: i <= k < |rest| ==> rest[k] == configs[k + 1];
  }

  lemma RegistryPushed<S>(configs: seq<Config<S>>, c: Config<S>)
    requires UniqueIds(configs) && c.id !in Registry(configs)
    ensures UniqueIds(configs + [c]) && Registry(configs + [c]) == Registry(configs)[c.id := c.entry]
  {
    RegistryAt(configs, c.id);
    assert (configs + [c])[..|configs|] == configs;
  }

  class Plugin<S> {
    const lib: Clang<S>
    var sharedBytes: string
    var configs: seq<Config<S>>
    var filePath: string
    var overrideConfigJson: string
    var formattedText: string
    var errorText: string

    constructor (lib: Clang<S>)
      ensures Valid() && Abs() == Empty() && this.lib == lib
    {
      this.lib := lib;
      sharedBytes, configs, filePath, overrideConfigJson, formattedText, errorText := "", [], "", "", "", "";
    }

    /** Ids are unique, so the vector is a finite map. */
    ghost predicate Valid()
      reads this
    {
      UniqueIds(configs)
    }

    ghost function Abs(): Session<S>
      reads this
    {
      Session(sharedBytes, Registry(configs), filePath, overrideConfigJson, formattedText, errorText)
    }

    /** find_config. */
    method FindConfig(id: nat) returns (index: Option<nat>)
      requires Valid()
      ensures index.Some? <==> id in Registry(configs)
      ensures index.Some? ==>
        index.value < |configs| && configs[index.value].id == id && configs[index.value].entry == Registry(configs)[id]
    {
      RegistryAt(configs, id);
      hide Registry;
      for i := 0 to |configs|
        invariant forall j {:trigger configs[j]} :: 0 <= j < i ==> configs[j].id != id
      {
        if configs[i].id == id {
          return Some(i);
        }
      }
      return None;
    }

    /** take_shared_string. */
    method TakeSharedString() returns (r: string)
      modifies this`sharedBytes
      ensures r == old(sharedBytes) && sharedBytes == ""
    {
      r := sharedBytes;
      sharedBytes := [];
    }

    /** set_shared_string. */
    method SetSharedString(value: string) returns (size: nat)
      modifies this`sharedBytes
      ensures sharedBytes == value && size == |value|
    {
      sharedBytes := value;
      size := |sharedBytes|;
    }

    /** upsert_config. */
    method UpsertConfig(id: nat, entry: Entry<S>)
      requires Valid()
      modifies this`configs
      ensures Valid() && Registry(configs) == Registry(old(configs))[id := entry]
    {
      hide Registry;
      var index := FindConfig(id);
      if index.Some? {
        RegistrySet(configs, index.value, entry);
        configs := configs[index.value := Config(id, entry)];
      } else {
        RegistryPushed(configs, Config(id, entry));
        configs := configs + [Config(id, entry)];
      }
    }

    /** clear_shared_bytes, and the host's writes through the pointer it returns. */
    method Fill(bytes: string)
      requires Valid()
      modifies this
      ensures Valid() && Abs() == Next(lib, old(Abs()), Call.Fill(bytes))
    {
      sharedBytes := seq(|bytes|, _ => '\0');
      for i := 0 to |bytes|
        invariant |sharedBytes| == |bytes| && sharedBytes[..i] == bytes[..i]
        invariant Valid() && Abs() == old(Abs()).(shared := sharedBytes)
      {
        sharedBytes := sharedBytes[i := bytes[i]];
        assert sharedBytes[..i + 1] == sharedBytes[..i] + [bytes[i]] && bytes[..i + 1] == bytes[..i] + [bytes[i]];
      }
      assert sharedBytes[..|bytes|] == sharedBytes && bytes[..|bytes|] == bytes;
    }

    /** register_config. */
    method RegisterConfig(id: nat)
      requires Valid()
      modifies this
      ensures Valid() && Abs() == Next(lib, old(Abs()), Register(id))
    {
      hide Registry, Resolve;
      var payload := TakeSharedString();
      match lib.parseJson(payload) {
        case Malformed(message) =>
          UpsertConfig(id, Entry(map[], map[], lib.llvmStyle, "{}", lib.diagnosticsText([Diagnostic("clangFormat",
            message)]), false));
        case NotObject =>
          UpsertConfig(id, Entry(map[], map[], lib.llvmStyle, "{}", lib.diagnosticsText([Diagnostic("clangFormat",
            "Expected a config object")]), false));
        case Fields(root) =>
          var plugin: Options, global: Options := map[], map[];
          var own, shared := ObjectAt(root, "plugin"), ObjectAt(root, "global");
          if own.Some? {
            plugin := own.value;
          }
          if shared.Some? {
            global := shared.value;
          }
          var r := Resolve(lib, plugin, global, None);
          UpsertConfig(id, Entry(plugin, global, r.style, lib.optionsText(r.resolved),
            lib.diagnosticsText(r.diagnostics), r.valid));
      }
    }

    /** release_config. */
    method ReleaseConfig(id: nat)
      requires Valid()
      modifies this
      ensures Valid() && Abs() == Next(lib, old(Abs()), Release(id))
    {
      RegistryAt(configs, id);
      hide Registry;
      for i := 0 to |configs|
        invariant configs == old(configs) && Abs() == old(Abs()) && Valid()
        invariant forall j {:trigger configs[j]} :: 0 <= j < i ==> configs[j].id != id
      {
        if configs[i].id == id {
          RegistryErased(configs, i);
          configs := configs[..i] + configs[i + 1..];
          return;
        }
      }
      assert Registry(configs) - {id} == Registry(configs);
    }

    /** set_file_path. */
    method SetPath()
      requires Valid()
      modifies this
      ensures Valid() && Abs() == Next(lib, old(Abs()), SetFilePath)
    {
      filePath := TakeSharedString();
      ghost var path := filePath;
      for i := 0 to |filePath|
        invariant Valid() && Abs() == old(Abs()).(shared := "", path := filePath) && |filePath| == |path|
        invariant forall j {:trigger filePath[j]} :: 0 <= j < |path| ==>
          filePath[j] == if j < i then Normalized(path)[j] else path[j]
      {
        if filePath[i] == '\\' {
          filePath := filePath[i := '/'];
        }
      }
      assert filePath == Normalized(path);
    }

    /** set_override_config. */
    method SetOverrideConfig()
      requires Valid()
      modifies this
      ensures Valid() && Abs() == Next(lib, old(Abs()), SetOverride)
    {
      overrideConfigJson := TakeSharedString();
    }

    /** The part of format_inner that runs clang-format, once the override is taken. */
    method Rewrite(style: S, input: string, start: nat, end: nat) returns (code: nat)
      requires Valid() && start <= end <= |input| && formattedText == "" && errorText == ""
      modifies this`formattedText, this`errorText
      ensures match lib.rewrite(style, input, start, end - start, if filePath == "" then "<stdin>" else filePath)
        case None => code == 2 && formattedText == "" && errorText == "clang-format failed to apply replacements"
        case Some(result) => errorText == "" && if result == input then code == 0 && formattedText == ""
          else code == 1 && formattedText == result
    {
      var result := lib.rewrite(style, input, start, end - start, if filePath == "" then "<stdin>" else filePath);
      if result.None? {
        errorText := "clang-format failed to apply replacements";
        return 2;
      }
      if result.value == input {
        return 0;
      }
      formattedText := result.value;
      return 1;
    }

    /** format_inner, once the input is taken and the range is known: every exit uses the override up. */
    method FormatTaken(id: nat, input: string, start: nat, end: nat) returns (code: nat)
      requires Valid() && formattedText == "" && errorText == ""
      modifies this`overrideConfigJson, this`formattedText, this`errorText
      ensures overrideConfigJson == ""
      ensures Outcome(code, formattedText, errorText) ==
        FormatOutcome(lib, Registry(configs), old(overrideConfigJson), filePath, input, id, start, end)
    {
      hide Registry, StyleFor;
      if start > end || end > |input| {
        overrideConfigJson := "";
        errorText := "invalid format range";
        return 2;
      }
      var index := FindConfig(id);
      if index.None? {
        overrideConfigJson := "";
        errorText := "unknown config id";
        return 2;
      }
      var style := StyleFor(lib, configs[index.value].entry, overrideConfigJson, filePath, input);
      overrideConfigJson := "";
      code := Rewrite(style, input, start, end);
    }

    /** format_inner. */
    method FormatInner(id: nat, rangeStart: nat, rangeEnd: nat, hasRange: bool) returns (code: nat)
      requires Valid()
      modifies this
      ensures Valid()
      ensures var c := if hasRange then FormatRange(id, rangeStart, rangeEnd) else Call.Format(id);
        Abs() == Next(lib, old(Abs()), c) && code == Answer(lib, old(Abs()), c)
    {
      hide Registry, FormatOutcome, EntryFor, Normalized;
      var input := TakeSharedString();
      formattedText := "";
      errorText := "";
      var start, end := rangeStart, rangeEnd;
      if !hasRange {
        start := 0;
        end := |input|;
      }
      code := FormatTaken(id, input, start, end);
    }

    /** get_formatted_text. */
    method GetFormattedText() returns (size: nat)
      requires Valid()
      modifies this
      ensures Valid() && Abs() == Next(lib, old(Abs()), GetText) && size == Answer(lib, old(Abs()), GetText)
    {
      size := SetSharedString(formattedText);
      formattedText := "";
    }

    /** get_error_text. */
    method GetErrorText() returns (size: nat)
      requires Valid()
      modifies this
      ensures Valid() && Abs() == Next(lib, old(Abs()), GetError) && size == Answer(lib, old(Abs()), GetError)
    {
      size := SetSharedString(errorText);
      errorText := "";
    }

    /** get_config_diagnostics. */
    method GetConfigDiagnostics(id: nat) returns (size: nat)
      requires Valid()
      modifies this
      ensures Valid() && Abs() == Next(lib, old(Abs()), GetDiagnostics(id))
      ensures size == Answer(lib, old(Abs()), GetDiagnostics(id))
    {
      hide Registry;
      var index := FindConfig(id);
      if index.Some? {
        size := SetSharedString(configs[index.value].entry.diagnosticsJson);
      } else {
        size := SetSharedString("[]");
      }
    }

    /** get_resolved_config. */
    method GetResolvedConfig(id: nat) returns (size: nat)
      requires Valid()
      modifies this
      ensures Valid() && Abs() == Next(lib, old(Abs()), GetResolved(id))
      ensures size == Answer(lib, old(Abs()), GetResolved(id))
    {
      hide Registry;
      var index := FindConfig(id);
      if index.Some? {
        size := SetSharedString(configs[index.value].entry.resolvedJson);
      } else {
        size := SetSharedString("{}");
      }
    }

    /** The getters of a fixed text, which goes over whatever the host left in the shared bytes. */
    method GetFixedText(text: string) returns (size: nat)
      requires Valid()
      modifies this
      ensures Valid() && Abs() == Next(lib, old(Abs()), GetConstant(text))
      ensures size == Answer(lib, old(Abs()), GetConstant(text))
    {
      size := SetSharedString(text);
    }

    /** Any of the exported calls. */
    method Perform(c: Call) returns (answer: nat)
      requires Valid()
      modifies this
      ensures Valid() && Abs() == Next(lib, old(Abs()), c) && answer == Answer(lib, old(Abs()), c)
    {
      hide Registry, Next, Answer;
      answer := 0;
      match c
      case Fill(bytes) => Fill(bytes); Quietly(lib, old(Abs()), c);
      case Register(id) => RegisterConfig(id); Quietly(lib, old(Abs()), c);
      case Release(id) => ReleaseConfig(id); Quietly(lib, old(Abs()), c);
      case SetFilePath => SetPath(); Quietly(lib, old(Abs()), c);
      case SetOverride => SetOverrideConfig(); Quietly(lib, old(Abs()), c);
      case Format(id) => answer := FormatInner(id, 0, 0, false);
      case FormatRange(id, start, end) => answer := FormatInner(id, start, end, true);
      case GetText => answer := GetFormattedText();
      case GetError => answer := GetErrorText();
      case GetDiagnostics(id) => answer := GetConfigDiagnostics(id);
      case GetResolved(id) => answer := GetResolvedConfig(id);
      case GetConstant(text) => answer := GetFixedText(text);
    }
  }

  lemma Quietly<S>(lib: Clang<S>, s: Session<S>, c: Call)
    ensures !Formats(c) && !c.GetText? && !c.GetError? && !c.GetDiagnostics? && !c.GetResolved? && !c.GetConstant? ==>
      Answer(lib, s, c) == 0
  {
  }

  /** Every run of calls on a fresh plugin is the abstract session's run. */
  method Run<S>(lib: Clang<S>, calls: seq<Call>) returns (p: Plugin<S>)
    ensures p.Valid() && p.lib == lib && p.Abs() == After(lib, Empty(), calls)
  {
    hide Registry, Next, Answer;
    p := new Plugin(lib);
    assert calls[..0] == [];
    for i := 0 to |calls|
      invariant p.Valid() && p.lib == lib && fresh(p) && p.Abs() == After(lib, Empty(), calls[..i])
    {
      assert calls[..i + 1][..i] == calls[..i];
      var answer := p.Perform(calls[i]);
    }
    assert calls[..|calls|] == calls;
  }
}
