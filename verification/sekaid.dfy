/**
 * The older TOML patcher of the sekaid plugin, and the batch of updates it
 * is folded over.  It differs from the newer patcher in how it finds the
 * line (raw substrings, a fallback for the base section) and in how it
 * decides to quote a value.
 */
module Sekaid {
  import opened Wrappers
  import opened Strings
  import opened Base
  import opened Lines

  /** A configuration variable: section tag (empty for the base section), name and value. */
  datatype TomlValue = TomlValue(tag: string, name: string, value: string)

  /** No line assigns `variableName` after the tag line of `tag` (the tag as searched for, brackets included). */
  datatype ConfigurationVariableNotFoundError = ConfigurationVariableNotFoundError(variableName: string, tag: string)

  /** `IsNullOrWhitespace`: nothing is left after trimming, that is, every character is white space. */
  function IsNullOrWhitespace(input: string): (r: bool)
    ensures r <==> forall i :: 0 <= i < |input| ==> IsSpace(input[i])
  {
    TrimSpaceEmpty(input);
    |TrimSpace(input)| == 0
  }

  /** Starts and ends with a double quote. */
  predicate QuotedAlready(value: string)
  {
    HasPrefix(value, "\"") && HasSuffix(value, "\"")
  }

  /** Starts with `[` and ends with `]`: an array literal. */
  predicate Bracketed(value: string)
  {
    HasPrefix(value, "[") && HasSuffix(value, "]")
  }

  /**
   * When the value gets quotes: when it is blank, or when it is neither quoted
   * nor bracketed already and either holds a blank or is neither a boolean
   * nor a number.
   */
  predicate NeedsQuotes(value: string)
  {
    IsNullOrWhitespace(value)
    || (!QuotedAlready(value) && !Bracketed(value) && (' ' in value || !(IsBool(value) || IsNumber(value))))
  }

  /** How the older patcher writes a value. */
  function FormatOldValue(value: string): (r: string)
    ensures r == value || r == Quote(value)
    ensures r == value <==>
      (!IsNullOrWhitespace(value) && (QuotedAlready(value) || Bracketed(value))) || IsBool(value) || IsNumber(value)
  {
    KindHasNoBlank(value);
    if NeedsQuotes(value) then Quote(value) else value
  }

  /** Unlike the newer patcher, the older one never quotes a value twice: formatting is idempotent. */
  lemma FormatOldValueIdempotent(value: string)
    ensures FormatOldValue(FormatOldValue(value)) == FormatOldValue(value)
  {
    var r := FormatOldValue(value);
    if r == Quote(value) {
      assert r[..1] == "\"" && r[|r| - 1..] == "\"";
      assert r[0] == '"';
      assert !IsNullOrWhitespace(r);
    }
  }

  /** An array literal such as `[ "*" ]` is kept, blank included. */
  lemma ArrayValueKept()
    ensures FormatOldValue("[ \"*\" ]") == "[ \"*\" ]"
  {
    var v := "[ \"*\" ]";
    assert Bracketed(v) by {
      assert v[..1] == "[";
      assert v[|v| - 1..] == "]";
    }
    assert !IsSpace(v[0]);
    assert !NeedsQuotes(v);
  }

  /** A value already in quotes is kept. */
  lemma QuotedValueKept()
    ensures FormatOldValue("\"x y\"") == "\"x y\""
  {
    var v := "\"x y\"";
    assert QuotedAlready(v) by {
      assert v[..1] == "\"";
      assert v[|v| - 1..] == "\"";
    }
    assert !IsSpace(v[0]);
    assert !NeedsQuotes(v);
  }

  /** A word is quoted, as in the newer formatter. */
  lemma OldWordQuoted()
    ensures FormatOldValue("new") == "\"new\""
  {
    var v := "new";
    NewIsNeitherKind();
    assert v[..1] != "\"" && v[..1] != "[";
    assert NeedsQuotes(v);
  }

  /**
   * The line the older patcher rewrites.  With an empty tag: the first line
   * whose trimmed text starts with `name =`, or failing that the first line
   * after line 0 whose raw text holds `name =` anywhere.  With a tag: the
   * first line after the first raw line holding the tag whose raw text holds
   * `name =`.
   */
  function OldScopedKeyLine(tag: string, name: string, lines: seq<string>): Option<nat>
  {
    if tag == "" then
      match FirstKeyLine(lines, name, 0)
      case Some(k) => Some(k)
      case None => FirstContaining(lines, name + " =", 1)
    else
      match FirstContaining(lines, tag, 0)
      case None => None
      case Some(t) => FirstContaining(lines, name + " =", t + 1)
  }

  /** What the older `SetTomlVar` returns for a variable and a document. */
  function OldPatched(config: TomlValue, configStr: string): Result<string, ConfigurationVariableNotFoundError>
  {
    var tag := TrimSpace(config.tag);
    var tag := if tag != "" then "[" + tag + "]" else tag;
    var name := TrimSpace(config.name);
    var lines := Split(configStr, '\n');
    match OldScopedKeyLine(tag, name, lines)
    case None => Failure(ConfigurationVariableNotFoundError(name, tag))
    case Some(k) => Success(Join(lines[k := NewLine(name, FormatOldValue(TrimSpace(config.value)))], '\n'))
  }

  /**
   * The scan of the older `SetTomlVar`: one pass over the lines recording the
   * tag line, the name line and the next section's line.  The name line is
   * never after the next section's line, so the scan fails exactly when it
   * finds no name line.
   */
  method ScanLines(tag: string, name: string, lines: seq<string>) returns (tagLine: int, nameLine: int, nextTagLine: int)
    ensures nextTagLine != -1 ==> nameLine != -1 && nameLine < nextTagLine
    ensures match OldScopedKeyLine(tag, name, lines)
            case None => nameLine == -1
            case Some(k) => nameLine == k
  {
    ghost var key := name + " =";
    tagLine, nameLine, nextTagLine := -1, -1, -1;
    for i := 0 to |lines|
      invariant -1 <= nameLine < i && -1 <= tagLine < i
      invariant tag == "" ==> tagLine == (if i == 0 then -1 else 0)
      invariant tag == "" ==> forall j :: 0 <= j < i ==> !IsKeyLine(lines[j], name)
      invariant tag == "" && nameLine == -1 ==> forall j :: 1 <= j < i ==> !Contains(lines[j], key)
      invariant tag == "" && nameLine != -1 ==> FirstContaining(lines, key, 1) == Some(nameLine)
      invariant tag != "" && tagLine == -1 ==>
        nameLine == -1 && forall j :: 0 <= j < i ==> !Contains(lines[j], tag)
      invariant tag != "" && tagLine != -1 ==> FirstContaining(lines, tag, 0) == Some(tagLine)
      invariant tag != "" && tagLine != -1 && nameLine == -1 ==>
        forall j :: tagLine < j < i ==> !Contains(lines[j], key)
      invariant tag != "" && nameLine != -1 ==>
        tagLine != -1 && FirstContaining(lines, key, tagLine + 1) == Some(nameLine)
      invariant nextTagLine == -1
    {
      var line := lines[i];
      var trimmedLine := TrimSpace(line);
      if tag == "" {
        assert OccursAt(line, tag, 0);
      }
      if tag == "" && HasPrefix(trimmedLine, name + " =") {
        FirstKeyLineIs(lines, name, 0, i);
        nameLine := i;
        break;
      }
      if tagLine == -1 && Contains(line, tag) {
        if tag != "" {
          FirstContainingIs(lines, tag, 0, i);
        }
        tagLine := i;
        continue;
      }
      if tagLine != -1 && nameLine == -1 && Contains(line, name + " =") {
        if tag == "" {
          FirstContainingIs(lines, key, 1, i);
        } else {
          FirstContainingIs(lines, key, tagLine + 1, i);
        }
        nameLine := i;
        continue;
      }
      if tagLine != -1 && nameLine != -1 && nextTagLine == -1 && Contains(line, "[") && !Contains(line, tag) {
        nextTagLine := i;
        break;
      }
    }
  }

  /** The formatting chain of the older `SetTomlVar`, applied to the trimmed value. */
  method FormatValueChain(value: string) returns (formatted: string)
    ensures formatted == FormatOldValue(value)
  {
    formatted := value;
    if IsNullOrWhitespace(formatted) {
      formatted := Quote(formatted);
    } else if HasPrefix(formatted, "\"") && HasSuffix(formatted, "\"") {
    } else if !HasPrefix(formatted, "[") || !HasSuffix(formatted, "]") {
      ContainsChar(formatted, ' ');
      if Contains(formatted, " ") {
        formatted := Quote(formatted);
      } else if !IsBool(formatted) && !IsNumber(formatted) {
        formatted := Quote(formatted);
      }
    }
  }

  /** The older `SetTomlVar`: trims the inputs, scans for the line, formats the value and rewrites the line. */
  method SetTomlVar(config: TomlValue, configStr: string) returns (r: Result<string, ConfigurationVariableNotFoundError>)
    ensures r == OldPatched(config, configStr)
  {
    var tag := TrimSpace(config.tag);
    var name := TrimSpace(config.name);
    var value := TrimSpace(config.value);
    if tag != "" {
      tag := "[" + tag + "]";
    }
    var lines := Split(configStr, '\n');
    var tagLine, nameLine, nextTagLine := ScanLines(tag, name, lines);
    if nameLine == -1 || (nextTagLine != -1 && nameLine > nextTagLine) {
      return Failure(ConfigurationVariableNotFoundError(name, tag));
    }
    value := FormatValueChain(value);
    lines := lines[nameLine := NewLine(name, value)];
    return Success(Join(lines, '\n'));
  }

  /**
   * With an empty tag the older patcher takes the first line whose trimmed
   * text starts with `name =`; only when there is none does it take the first
   * line after line 0 that mentions `name =` anywhere, a comment included.
   */
  lemma OldBaseSectionChoice(name: string, lines: seq<string>, k: nat)
    requires k < |lines|
    ensures OldScopedKeyLine("", name, lines) == Some(k) <==>
      (IsKeyLine(lines[k], name) && forall j :: 0 <= j < k ==> !IsKeyLine(lines[j], name))
      || ((forall j :: 0 <= j < |lines| ==> !IsKeyLine(lines[j], name))
          && 1 <= k && Contains(lines[k], name + " =")
          && forall j :: 1 <= j < k ==> !Contains(lines[j], name + " ="))
  {
    if IsKeyLine(lines[k], name) && forall j :: 0 <= j < k ==> !IsKeyLine(lines[j], name) {
      FirstKeyLineIs(lines, name, 0, k);
    }
    if (forall j :: 0 <= j < |lines| ==> !IsKeyLine(lines[j], name))
       && 1 <= k && Contains(lines[k], name + " =")
       && forall j :: 1 <= j < k ==> !Contains(lines[j], name + " =") {
      FirstContainingIs(lines, name + " =", 1, k);
    }
  }

  /**
   * With a tag the older patcher takes the first line after the first raw
   * line holding the tag that mentions `name =`; a later section header
   * does not end the search.
   */
  lemma OldTaggedChoice(tag: string, name: string, lines: seq<string>, t: nat, k: nat)
    requires tag != "" && t < k < |lines|
    requires Contains(lines[t], tag) && forall j :: 0 <= j < t ==> !Contains(lines[j], tag)
    ensures OldScopedKeyLine(tag, name, lines) == Some(k) <==>
      Contains(lines[k], name + " =") && forall j :: t < j < k ==> !Contains(lines[j], name + " =")
  {
    FirstContainingIs(lines, tag, 0, t);
    if Contains(lines[k], name + " =") && forall j :: t < j < k ==> !Contains(lines[j], name + " =") {
      FirstContainingIs(lines, name + " =", t + 1, k);
    }
  }

  /** A tag that no line holds is an error, not a fall-back to the base section. */
  lemma OldMissingTagFails(config: TomlValue, configStr: string)
    requires TrimSpace(config.tag) != ""
    requires forall j :: 0 <= j < |Split(configStr, '\n')| ==>
      !Contains(Split(configStr, '\n')[j], "[" + TrimSpace(config.tag) + "]")
    ensures OldPatched(config, configStr)
         == Failure(ConfigurationVariableNotFoundError(TrimSpace(config.name), "[" + TrimSpace(config.tag) + "]"))
  {
  }

  /** An empty document has no variable to update. */
  lemma OldEmptyDocumentFails(config: TomlValue)
    ensures OldPatched(config, "").Failure?
  {
    assert Split("", '\n') == [""];
    assert TrimSpace("") == "";
    var tag := TrimSpace(config.tag);
    assert !Contains("", "[" + tag + "]");
  }

  /** A successful update rewrites one line: the text before it and after it is kept byte for byte. */
  lemma OldPatchedReplacesOneLine(config: TomlValue, configStr: string)
    requires OldPatched(config, configStr).Success?
    ensures var tag := TrimSpace(config.tag);
      var lines := Split(configStr, '\n');
      var name := TrimSpace(config.name);
      var k := OldScopedKeyLine(if tag != "" then "[" + tag + "]" else tag, name, lines);
      && k.Some?
      && Contains(lines[k.value], name + " =")
      && OldPatched(config, configStr).value
         == Before(lines, k.value, '\n') + NewLine(name, FormatOldValue(TrimSpace(config.value))) + After(lines, k.value, '\n')
  {
    var tag := TrimSpace(config.tag);
    var lines := Split(configStr, '\n');
    var name := TrimSpace(config.name);
    var k := OldScopedKeyLine(if tag != "" then "[" + tag + "]" else tag, name, lines).value;
    OldChosenLineMentions(if tag != "" then "[" + tag + "]" else tag, name, lines);
    JoinReplace(lines, k, NewLine(name, FormatOldValue(TrimSpace(config.value))), '\n');
  }

  /** The chosen line mentions `name =`. */
  lemma OldChosenLineMentions(tag: string, name: string, lines: seq<string>)
    requires OldScopedKeyLine(tag, name, lines).Some?
    ensures Contains(lines[OldScopedKeyLine(tag, name, lines).value], name + " =")
  {
    var k := OldScopedKeyLine(tag, name, lines).value;
    if IsKeyLine(lines[k], name) {
      KeyLineContains(lines[k], name);
    }
  }

  /** A key line mentions `name =`. */
  lemma KeyLineContains(line: string, name: string)
    requires IsKeyLine(line, name)
    ensures Contains(line, name + " =")
  {
    var t := TrimSpace(line);
    TrimSpaceShape(line);
    var lo := TrimStart(line);
    assert line[lo..][..|name + " ="|] == t[..|name + " ="|];
    assert OccursAt(line, name + " =", lo);
  }

  /** The written line mentions `name =`, and is a key line when the name and the value have no border blanks. */
  lemma NewLineShape(name: string, value: string)
    ensures Contains(NewLine(name, value), name + " =")
    ensures name != "" && !IsSpace(name[0]) && value != "" && !IsSpace(value[|value| - 1]) ==>
      IsKeyLine(NewLine(name, value), name)
  {
    assert NewLine(name, value) == "" + (name + " =") + (" " + value);
    ContainsMiddle("", name + " =", " " + value);
    if name != "" && !IsSpace(name[0]) && value != "" && !IsSpace(value[|value| - 1]) {
      AssignmentIsKeyLine(name, value);
    }
  }

  /** The formatted form of a trimmed value is non-empty and does not end in a blank. */
  lemma FormatOldValueBorders(value: string)
    ensures var r := FormatOldValue(TrimSpace(value));
      r != "" && !IsSpace(r[|r| - 1])
  {
    TrimSpaceShape(value);
    TrimSpaceEmpty(value);
  }

  /** Rewriting the chosen line as a line that still qualifies leaves the choice where it was. */
  lemma OldScopedKeyLineKept(tag: string, name: string, lines: seq<string>, k: nat, x: string)
    requires OldScopedKeyLine(tag, name, lines) == Some(k)
    requires Contains(x, name + " =")
    requires IsKeyLine(lines[k], name) ==> IsKeyLine(x, name)
    ensures OldScopedKeyLine(tag, name, lines[k := x]) == Some(k)
  {
    var lines' := lines[k := x];
    var key := name + " =";
    if tag == "" {
      if FirstKeyLine(lines, name, 0).Some? {
        FirstKeyLineIs(lines', name, 0, k);
      } else if IsKeyLine(x, name) {
        FirstKeyLineIs(lines', name, 0, k);
      } else {
        assert forall j :: 0 <= j < |lines'| ==> !IsKeyLine(lines'[j], name);
        FirstContainingIs(lines', key, 1, k);
      }
    } else {
      var t := FirstContaining(lines, tag, 0).value;
      FirstContainingIs(lines', tag, 0, t);
      FirstContainingIs(lines', key, t + 1, k);
    }
  }

  /** With a one-line value, the update keeps the number of lines and changes only the chosen one. */
  lemma OldPatchedLines(config: TomlValue, configStr: string)
    requires OldPatched(config, configStr).Success? && '\n' !in config.value
    ensures var tag := TrimSpace(config.tag);
      var lines := Split(configStr, '\n');
      var name := TrimSpace(config.name);
      var k := OldScopedKeyLine(if tag != "" then "[" + tag + "]" else tag, name, lines).value;
      Split(OldPatched(config, configStr).value, '\n') == lines[k := NewLine(name, FormatOldValue(TrimSpace(config.value)))]
  {
    var tag := TrimSpace(config.tag);
    var lines := Split(configStr, '\n');
    var name := TrimSpace(config.name);
    var k := OldScopedKeyLine(if tag != "" then "[" + tag + "]" else tag, name, lines).value;
    var value := TrimSpace(config.value);
    var nl := NewLine(name, FormatOldValue(value));
    OldChosenLineMentions(if tag != "" then "[" + tag + "]" else tag, name, lines);
    if '\n' in name {
      ContainsChars(lines[k], name + " =", '\n');
    }
    TrimSpaceShape(config.value);
    assert '\n' !in value;
    assert '\n' !in FormatOldValue(value) by {
      assert FormatOldValue(value) == value || FormatOldValue(value) == Quote(value);
    }
    assert '\n' !in nl;
    SplitJoin(lines[k := nl], '\n');
  }

  /** Applying the same one-line update twice gives the same document as applying it once. */
  lemma OldPatchedIdempotent(config: TomlValue, configStr: string)
    requires OldPatched(config, configStr).Success? && '\n' !in config.value
    ensures OldPatched(config, OldPatched(config, configStr).value) == OldPatched(config, configStr)
  {
    var tag := TrimSpace(config.tag);
    var tag' := if tag != "" then "[" + tag + "]" else tag;
    var lines := Split(configStr, '\n');
    var name := TrimSpace(config.name);
    var k := OldScopedKeyLine(tag', name, lines).value;
    var fv := FormatOldValue(TrimSpace(config.value));
    var nl := NewLine(name, fv);
    OldPatchedLines(config, configStr);
    FormatOldValueBorders(config.value);
    TrimSpaceShape(config.name);
    if IsKeyLine(lines[k], name) {
      KeyLineHasName(lines[k], name);
    }
    NewLineShape(name, fv);
    OldScopedKeyLineKept(tag', name, lines, k, nl);
    assert lines[k := nl][k := nl] == lines[k := nl];
  }

  /** One step of the batch: a successful update replaces the text, a failing one is skipped. */
  function ApplyOne(config: string, update: TomlValue): string
  {
    match OldPatched(update, config)
    case Success(newConfig) => newConfig
    case Failure(_) => config
  }

  /** The batch of updates applied in order, each to the text the previous ones left. */
  function ApplyAll(config: string, updates: seq<TomlValue>): string
    decreases |updates|
  {
    if updates == [] then config
    else ApplyOne(ApplyAll(config, updates[..|updates| - 1]), updates[|updates| - 1])
  }

  /** The loop of `applyNewConfig` over the text of the configuration file. */
  method ApplyNewConfig(configFileContent: string, configsToml: seq<TomlValue>) returns (config: string)
    ensures config == ApplyAll(configFileContent, configsToml)
  {
    config := configFileContent;
    for i := 0 to |configsToml|
      invariant config == ApplyAll(configFileContent, configsToml[..i])
    {
      var update := configsToml[i];
      assert configsToml[..i + 1][..i] == configsToml[..i];
      var newConfig := SetTomlVar(update, config);
      if newConfig.Failure? {
        continue;
      }
      config := newConfig.value;
    }
    assert configsToml[..|configsToml|] == configsToml;
  }

  /** The first update is applied first: the batch runs left to right. */
  lemma {:induction false} ApplyAllFirst(config: string, update: TomlValue, updates: seq<TomlValue>)
    ensures ApplyAll(config, [update] + updates) == ApplyAll(ApplyOne(config, update), updates)
    decreases |updates|
  {
    if updates != [] {
      var all := [update] + updates;
      assert all[..|all| - 1] == [update] + updates[..|updates| - 1];
      ApplyAllFirst(config, update, updates[..|updates| - 1]);
    } else {
      assert ([update] + updates)[..0] == [];
    }
  }

  /** A batch in which every update fails on the original text leaves the text as it was. */
  lemma {:induction false} ApplyAllFailing(config: string, updates: seq<TomlValue>)
    requires forall i :: 0 <= i < |updates| ==> OldPatched(updates[i], config).Failure?
    ensures ApplyAll(config, updates) == config
    decreases |updates|
  {
    if updates != [] {
      ApplyAllFailing(config, updates[..|updates| - 1]);
    }
  }

  /** A batch of one-line values keeps the number of lines of the document. */
  lemma {:induction false} ApplyAllKeepsLineCount(config: string, updates: seq<TomlValue>)
    requires forall i :: 0 <= i < |updates| ==> '\n' !in updates[i].value
    ensures |Split(ApplyAll(config, updates), '\n')| == |Split(config, '\n')|
    decreases |updates|
  {
    if updates != [] {
      var prefix := updates[..|updates| - 1];
      ApplyAllKeepsLineCount(config, prefix);
      var before := ApplyAll(config, prefix);
      var last := updates[|updates| - 1];
      if OldPatched(last, before).Success? {
        OldPatchedLines(last, before);
      }
    }
  }
}
