/**
 * The line-oriented TOML patcher: it rewrites the one line that assigns a
 * variable, inside the section named by a tag or in the base section, and
 * keeps every other byte of the document (comments, layout, other keys).
 */
module Toml {
  import opened Wrappers
  import opened Strings
  import opened Base
  import opened Lines

  /** A variable to set: its section tag (empty for the base section), its name and its new value. */
  datatype Value = Value(tag: string, name: string, value: string)

  /** No line assigning `variableName` in the scope of `tag` (the tag as searched for, brackets included). */
  datatype VariableNotFoundError = VariableNotFoundError(variableName: string, tag: string)

  /** A section header as it is searched for: `[tag]`, or nothing for the base section. */
  function FormatTag(tag: string): (r: string)
    ensures r == "" <==> tag == ""
    ensures tag != "" ==> |r| == |tag| + 2 && r[0] == '[' && r[|r| - 1] == ']' && r[1..|r| - 1] == tag
  {
    if tag != "" then "[" + tag + "]" else tag
  }

  /**
   * How a value is written: booleans and numbers stay bare, anything else
   * (the empty value, a value with a blank, any other text) is quoted.
   */
  function FormatValue(value: string): (r: string)
    ensures r == value || r == Quote(value)
    ensures r == value <==> IsBool(value) || IsNumber(value)
  {
    ContainsChar(value, ' ');
    KindHasNoBlank(value);
    if value == "" || Contains(value, " ") then Quote(value)
    else if IsBool(value) || IsNumber(value) then value
    else Quote(value)
  }

  /** A text that already starts with a quote is quoted once more: no boolean or number starts with `"`. */
  lemma FormatValueRequotes(value: string)
    requires value != "" && value[0] == '"'
    ensures FormatValue(value) == Quote(value)
  {
    if IsNumber(value) {
      NumberLead(value);
    }
    if IsBool(value) {
      BoolLead(value);
    }
  }

  /** The written value of a trimmed value has no blank at its end. */
  lemma FormatValueBorders(value: string)
    ensures var r := FormatValue(TrimSpace(value));
      r != "" && !IsSpace(r[|r| - 1])
  {
    TrimSpaceShape(value);
  }

  /**
   * Where the scope of `tag` begins: 0 for the base section, the line after
   * the first tag line otherwise, none without a tag line.  A line is in
   * scope exactly when it lies at or after that start.
   */
  function ScopeStart(tag: string, lines: seq<string>): (r: Option<nat>)
    ensures forall j :: 0 <= j < |lines| ==> (InScope(tag, lines, j) <==> r.Some? && r.value <= j)
  {
    if tag == "" then Some(0)
    else match FirstTagLine(lines, tag, 0)
      case None => None
      case Some(t) => Some(t + 1)
  }

  /** The line to rewrite: the first key line for `name` in the scope of `tag`. */
  function ScopedKeyLine(tag: string, name: string, lines: seq<string>): Option<nat>
  {
    match ScopeStart(tag, lines)
    case None => None
    case Some(s) => FirstKeyLine(lines, name, s)
  }

  /** Line `j` lies in the scope of `tag`: every line for the base section, the lines after a tag line otherwise. */
  predicate InScope(tag: string, lines: seq<string>, j: nat)
    requires j <= |lines|
  {
    tag == "" || exists t :: 0 <= t < j && IsTagLine(lines[t], tag)
  }

  /** The line chosen is exactly the first line in scope that assigns `name`. */
  lemma ScopedKeyLineIsFirstInScope(tag: string, name: string, lines: seq<string>, k: nat)
    requires k < |lines|
    ensures ScopedKeyLine(tag, name, lines) == Some(k) <==>
      InScope(tag, lines, k) && IsKeyLine(lines[k], name)
      && forall j :: 0 <= j < k && InScope(tag, lines, j) ==> !IsKeyLine(lines[j], name)
  {
    var start := ScopeStart(tag, lines);
  }

  /** No line in the scope of `tag` assigns `name`. */
  predicate NoKeyLineInScope(tag: string, name: string, lines: seq<string>)
  {
    forall j :: 0 <= j < |lines| && InScope(tag, lines, j) ==> !IsKeyLine(lines[j], name)
  }

  /** No line is chosen exactly when no line in scope assigns `name`. */
  lemma ScopedKeyLineNoneIsNoneInScope(tag: string, name: string, lines: seq<string>)
    ensures ScopedKeyLine(tag, name, lines).None? <==> NoKeyLineInScope(tag, name, lines)
  {
    var start := ScopeStart(tag, lines);
  }

  /** `searchLine`: walks the lines, opens the scope at the first tag line and stops at the first key line in scope. */
  method SearchLine(tag: string, name: string, lines: seq<string>) returns (r: Result<nat, VariableNotFoundError>)
    ensures match ScopedKeyLine(tag, name, lines)
            case Some(k) => r == Success(k)
            case None => r == Failure(VariableNotFoundError(name, tag))
  {
    var tagFound := tag == "";
    var withinScope := tag == "";
    ghost var start := ScopeStart(tag, lines);
    for lineIndex := 0 to |lines|
      invariant withinScope == tagFound
      invariant tagFound <==> start.Some? && start.value <= lineIndex
      invariant !tagFound ==> tag != "" && forall j :: 0 <= j < lineIndex ==> !IsTagLine(lines[j], tag)
      invariant tagFound ==> forall j :: start.value <= j < lineIndex ==> !IsKeyLine(lines[j], name)
    {
      var trimmedCurrentLine := TrimSpace(lines[lineIndex]);
      if !tagFound && Contains(trimmedCurrentLine, tag) {
        FirstTagLineIs(lines, tag, 0, lineIndex);
        tagFound := true;
        withinScope := true;
        continue;
      }
      if withinScope && HasPrefix(trimmedCurrentLine, name + " =") {
        FirstKeyLineIs(lines, name, start.value, lineIndex);
        return Success(lineIndex);
      }
    }
    return Failure(VariableNotFoundError(name, tag));
  }

  /** What `SetTomlVar` returns for a variable and a document. */
  function Patched(v: Value, configStr: string): Result<string, VariableNotFoundError>
  {
    var tag := FormatTag(TrimSpace(v.tag));
    var name := TrimSpace(v.name);
    var lines := Split(configStr, '\n');
    match ScopedKeyLine(tag, name, lines)
    case None => Failure(VariableNotFoundError(name, tag))
    case Some(k) => Success(Join(lines[k := NewLine(name, FormatValue(TrimSpace(v.value)))], '\n'))
  }

  /** `SetTomlVar`: trims the inputs, finds the line, replaces it with `name = value` and joins the lines back. */
  method SetTomlVar(tomlValue: Value, configStr: string) returns (r: Result<string, VariableNotFoundError>)
    ensures r == Patched(tomlValue, configStr)
  {
    var tag := TrimSpace(tomlValue.tag);
    var name := TrimSpace(tomlValue.name);
    var value := TrimSpace(tomlValue.value);
    tag := FormatTag(tag);
    var lines := Split(configStr, '\n');
    var found := SearchLine(tag, name, lines);
    if found.Failure? {
      return Failure(found.error);
    }
    value := FormatValue(value);
    lines := lines[found.value := NewLine(name, value)];
    return Success(Join(lines, '\n'));
  }

  /**
   * A successful update rewrites one line: the output is the text before the
   * chosen line, the new `name = value` line, and the text after it, byte for byte.
   */
  lemma PatchedReplacesOneLine(v: Value, configStr: string)
    requires Patched(v, configStr).Success?
    ensures var lines := Split(configStr, '\n');
      var name := TrimSpace(v.name);
      var k := ScopedKeyLine(FormatTag(TrimSpace(v.tag)), name, lines);
      && k.Some?
      && IsKeyLine(lines[k.value], name)
      && Patched(v, configStr).value
         == Before(lines, k.value, '\n') + NewLine(name, FormatValue(TrimSpace(v.value))) + After(lines, k.value, '\n')
  {
    var lines := Split(configStr, '\n');
    var name := TrimSpace(v.name);
    var k := ScopedKeyLine(FormatTag(TrimSpace(v.tag)), name, lines).value;
    JoinReplace(lines, k, NewLine(name, FormatValue(TrimSpace(v.value))), '\n');
  }

  /** The update fails exactly when no line in scope assigns the trimmed name, and the error names the variable and the tag. */
  lemma PatchedFails(v: Value, configStr: string)
    ensures var tag := FormatTag(TrimSpace(v.tag));
      var name := TrimSpace(v.name);
      var lines := Split(configStr, '\n');
      && (Patched(v, configStr).Failure? <==> NoKeyLineInScope(tag, name, lines))
      && (Patched(v, configStr).Failure? ==> Patched(v, configStr).error == VariableNotFoundError(name, tag))
  {
    var tag := FormatTag(TrimSpace(v.tag));
    var name := TrimSpace(v.name);
    var lines := Split(configStr, '\n');
    ScopedKeyLineNoneIsNoneInScope(tag, name, lines);
    match ScopedKeyLine(tag, name, lines)
    case None =>
      assert Patched(v, configStr) == Failure(VariableNotFoundError(name, tag));
    case Some(k) =>
      assert Patched(v, configStr).Success?;
  }

  /** An empty document has no variable to update. */
  lemma EmptyDocumentFails(v: Value)
    ensures Patched(v, "").Failure?
  {
    assert Split("", '\n') == [""];
    assert ScopedKeyLine(FormatTag(TrimSpace(v.tag)), TrimSpace(v.name), [""]).None? by {
      assert TrimSpace("") == "";
    }
  }

  /** Rewriting the chosen line as another key line for the same name leaves the choice where it was. */
  lemma ScopedKeyLineKept(tag: string, name: string, lines: seq<string>, k: nat, x: string)
    requires ScopedKeyLine(tag, name, lines) == Some(k)
    requires IsKeyLine(x, name)
    ensures ScopedKeyLine(tag, name, lines[k := x]) == Some(k)
  {
    var lines' := lines[k := x];
    if tag == "" {
      FirstKeyLineIs(lines', name, 0, k);
    } else {
      var t := FirstTagLine(lines, tag, 0).value;
      FirstTagLineIs(lines', tag, 0, t);
      FirstKeyLineIs(lines', name, t + 1, k);
    }
  }

  /** With a one-line value, the update keeps the number of lines and changes only the chosen one. */
  lemma PatchedLines(v: Value, configStr: string)
    requires Patched(v, configStr).Success? && '\n' !in v.value
    ensures var lines := Split(configStr, '\n');
      var name := TrimSpace(v.name);
      var k := ScopedKeyLine(FormatTag(TrimSpace(v.tag)), name, lines).value;
      Split(Patched(v, configStr).value, '\n') == lines[k := NewLine(name, FormatValue(TrimSpace(v.value)))]
  {
    var lines := Split(configStr, '\n');
    var name := TrimSpace(v.name);
    var k := ScopedKeyLine(FormatTag(TrimSpace(v.tag)), name, lines).value;
    var value := TrimSpace(v.value);
    var nl := NewLine(name, FormatValue(value));
    KeyLineNameOneLine(lines[k], name);
    TrimSpaceShape(v.value);
    assert '\n' !in value;
    assert '\n' !in nl;
    SplitJoin(lines[k := nl], '\n');
  }

  /** Setting a one-line value twice gives the same document as setting it once. */
  lemma PatchedIdempotent(v: Value, configStr: string)
    requires Patched(v, configStr).Success? && '\n' !in v.value
    ensures Patched(v, Patched(v, configStr).value) == Patched(v, configStr)
  {
    var tag := FormatTag(TrimSpace(v.tag));
    var lines := Split(configStr, '\n');
    var name := TrimSpace(v.name);
    var k := ScopedKeyLine(tag, name, lines).value;
    var nl := NewLine(name, FormatValue(TrimSpace(v.value)));
    PatchedLines(v, configStr);
    KeyLineHasName(lines[k], name);
    TrimSpaceShape(v.name);
    FormatValueBorders(v.value);
    AssignmentIsKeyLine(name, FormatValue(TrimSpace(v.value)));
    ScopedKeyLineKept(tag, name, lines, k, nl);
    assert lines[k := nl][k := nl] == lines[k := nl];
  }

  /** A number from the patcher's tests stays bare. */
  lemma NumberStaysBare()
    ensures FormatValue("8010") == "8010"
  {
    DecimalIsNumber("8010", "8010");
    assert ' ' !in "8010";
  }

  /** A boolean stays bare. */
  lemma BoolStaysBare()
    ensures FormatValue("true") == "true"
  {
    assert IsBool("true");
    assert ' ' !in "true";
  }

  /** A word that is neither a boolean nor a number is quoted. */
  lemma WordQuoted()
    ensures FormatValue("new") == "\"new\""
  {
    NewIsNeitherKind();
    assert FormatValue("new") != "new";
  }

  /** A value holding a blank is quoted, whatever its words are (the case `new value`). */
  lemma BlankValueQuoted(value: string)
    requires ' ' in value
    ensures FormatValue(value) == Quote(value)
  {
    ContainsChar(value, ' ');
  }

  /** The document of the "complex file" case, as lines. */
  const complexLines: seq<string> := ["", "basevar = text", "[tag1]", "variable = 8000", "[tag2]", "variable2 = true", ""]

  /** A line without `[` is no tag line for a bracketed tag. */
  lemma NoBracketNoTagLine(line: string, tag: string)
    requires '[' !in line && '[' in tag
    ensures !IsTagLine(line, tag)
  {
    TrimSpaceShape(line);
    if Contains(TrimSpace(line), tag) {
      ContainsChars(TrimSpace(line), tag, '[');
    }
  }

  /** A tag with no white space at its ends is found on a line holding just the tag. */
  lemma TagIsTagLine(tag: string)
    requires tag == [] || (!IsSpace(tag[0]) && !IsSpace(tag[|tag| - 1]))
    ensures IsTagLine(tag, tag)
  {
    TrimSpaceNoBorder(tag);
    ContainsMiddle("", tag, "");
    assert "" + tag + "" == tag;
  }

  /** In that document the scope of `[tag1]` starts after line 2. */
  lemma ComplexTagLine()
    ensures FirstTagLine(complexLines, "[tag1]", 0) == Some(2)
  {
    NoBracketNoTagLine(complexLines[0], "[tag1]");
    NoBracketNoTagLine(complexLines[1], "[tag1]");
    TagIsTagLine("[tag1]");
    FirstTagLineIs(complexLines, "[tag1]", 0, 2);
  }

  /** In that document the line chosen for `variable` in `[tag1]` is line 3, not the one under `[tag2]`. */
  lemma ComplexKeyLine()
    ensures ScopedKeyLine("[tag1]", "variable", complexLines) == Some(3)
  {
    ComplexTagLine();
    assert IsKeyLine(complexLines[3], "variable") by {
      AssignmentIsKeyLine("variable", "8000");
      assert NewLine("variable", "8000") == complexLines[3];
    }
    FirstKeyLineIs(complexLines, "variable", 3, 3);
  }
}
