/**
 * A configuration document seen as lines, and the line searches both TOML
 * patchers are made of: the first key line, the first line whose trimmed
 * text holds a section tag, the first line whose raw text holds a word.
 */
module Lines {
  import opened Wrappers
  import opened Strings

  /** A TOML basic string holding `s`. */
  function Quote(s: string): string
  {
    "\"" + s + "\""
  }

  /** The line both patchers write for a variable. */
  function NewLine(name: string, value: string): string
  {
    name + " = " + value
  }

  /** A line assigning `name`: its trimmed text starts with `name =`. */
  predicate IsKeyLine(line: string, name: string)
  {
    HasPrefix(TrimSpace(line), name + " =")
  }

  /** A line whose trimmed text holds the section tag `tag`. */
  predicate IsTagLine(line: string, tag: string)
  {
    Contains(TrimSpace(line), tag)
  }

  /** The first key line for `name` at index `from` or later. */
  function FirstKeyLine(lines: seq<string>, name: string, from: nat): (r: Option<nat>)
    ensures r.Some? ==> from <= r.value < |lines| && IsKeyLine(lines[r.value], name)
    ensures r.Some? ==> forall j :: from <= j < r.value ==> !IsKeyLine(lines[j], name)
    ensures r.None? ==> forall j :: from <= j < |lines| ==> !IsKeyLine(lines[j], name)
    decreases |lines| - from
  {
    if from >= |lines| then None
    else if IsKeyLine(lines[from], name) then Some(from)
    else FirstKeyLine(lines, name, from + 1)
  }

  /** The first line at index `from` or later whose trimmed text holds `tag`. */
  function FirstTagLine(lines: seq<string>, tag: string, from: nat): (r: Option<nat>)
    ensures r.Some? ==> from <= r.value < |lines| && IsTagLine(lines[r.value], tag)
    ensures r.Some? ==> forall j :: from <= j < r.value ==> !IsTagLine(lines[j], tag)
    ensures r.None? ==> forall j :: from <= j < |lines| ==> !IsTagLine(lines[j], tag)
    decreases |lines| - from
  {
    if from >= |lines| then None
    else if IsTagLine(lines[from], tag) then Some(from)
    else FirstTagLine(lines, tag, from + 1)
  }

  /** The first line at index `from` or later whose raw text holds `sub`. */
  function FirstContaining(lines: seq<string>, sub: string, from: nat): (r: Option<nat>)
    ensures r.Some? ==> from <= r.value < |lines| && Contains(lines[r.value], sub)
    ensures r.Some? ==> forall j :: from <= j < r.value ==> !Contains(lines[j], sub)
    ensures r.None? ==> forall j :: from <= j < |lines| ==> !Contains(lines[j], sub)
    decreases |lines| - from
  {
    if from >= |lines| then None
    else if Contains(lines[from], sub) then Some(from)
    else FirstContaining(lines, sub, from + 1)
  }

  /** The search result is pinned down by "a match, and no match before it". */
  lemma FirstKeyLineIs(lines: seq<string>, name: string, from: nat, k: nat)
    requires from <= k < |lines| && IsKeyLine(lines[k], name)
    requires forall j :: from <= j < k ==> !IsKeyLine(lines[j], name)
    ensures FirstKeyLine(lines, name, from) == Some(k)
  {
  }

  lemma FirstTagLineIs(lines: seq<string>, tag: string, from: nat, k: nat)
    requires from <= k < |lines| && IsTagLine(lines[k], tag)
    requires forall j :: from <= j < k ==> !IsTagLine(lines[j], tag)
    ensures FirstTagLine(lines, tag, from) == Some(k)
  {
  }

  lemma FirstContainingIs(lines: seq<string>, sub: string, from: nat, k: nat)
    requires from <= k < |lines| && Contains(lines[k], sub)
    requires forall j :: from <= j < k ==> !Contains(lines[j], sub)
    ensures FirstContaining(lines, sub, from) == Some(k)
  {
  }

  /** A key line names a non-empty key: a trimmed line never starts with the blank of ` =`. */
  lemma KeyLineHasName(line: string, name: string)
    requires IsKeyLine(line, name)
    ensures name != ""
  {
    TrimSpaceShape(line);
  }

  /** A key line found in a line without line breaks names a key without line breaks. */
  lemma KeyLineNameOneLine(line: string, name: string)
    requires IsKeyLine(line, name) && '\n' !in line
    ensures '\n' !in name
  {
    TrimSpaceShape(line);
    var t := TrimSpace(line);
    forall i | 0 <= i < |name| ensures name[i] in t {
      assert t[i] == (name + " =")[i] == name[i];
    }
  }

  /** A line `name = text` written from a trimmed name and a text without border blanks is a key line for `name`. */
  lemma AssignmentIsKeyLine(name: string, text: string)
    requires name != "" && !IsSpace(name[0])
    requires text != "" && !IsSpace(text[|text| - 1])
    ensures IsKeyLine(name + " = " + text, name)
  {
    var line := name + " = " + text;
    TrimSpaceNoBorder(line);
    assert line[..|name + " ="|] == name + " =";
  }
}
