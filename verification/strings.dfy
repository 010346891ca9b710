/**
 * Text primitives over `string` (a sequence of Unicode code points): the
 * whitespace trimming, prefix/suffix/substring tests and single-character
 * split/join that the configuration patchers are built from.  They follow
 * Go's `strings.TrimSpace`, `HasPrefix`, `HasSuffix`, `Contains`, `Split`
 * and `Join`.
 */
module Strings {

  /** Go's `unicode.IsSpace`: the Latin-1 spaces plus the other White_Space code points. */
  predicate IsSpace(c: char)
  {
    var n := c as int;
    n == 0x09 || n == 0x0A || n == 0x0B || n == 0x0C || n == 0x0D || n == 0x20
    || n == 0x85 || n == 0xA0 || n == 0x1680 || (0x2000 <= n <= 0x200A)
    || n == 0x2028 || n == 0x2029 || n == 0x202F || n == 0x205F || n == 0x3000
  }

  /** Drops the leading white space. */
  function TrimLeft(s: string): string
  {
    if |s| > 0 && IsSpace(s[0]) then TrimLeft(s[1..]) else s
  }

  /** Drops the trailing white space. */
  function TrimRight(s: string): string
  {
    if |s| > 0 && IsSpace(s[|s| - 1]) then TrimRight(s[..|s| - 1]) else s
  }

  /** Trimming the front removes white space only, up to the first other character. */
  lemma {:induction false} TrimLeftShape(s: string)
    ensures var r := TrimLeft(s);
      && |r| <= |s| && r == s[|s| - |r|..]
      && (forall i :: 0 <= i < |s| - |r| ==> IsSpace(s[i]))
      && (r == [] || !IsSpace(r[0]))
  {
    if |s| > 0 && IsSpace(s[0]) {
      TrimLeftShape(s[1..]);
    }
  }

  /** Trimming the back removes white space only, down to the last other character. */
  lemma {:induction false} TrimRightShape(s: string)
    ensures var r := TrimRight(s);
      && |r| <= |s| && r == s[..|r|]
      && (forall i :: |r| <= i < |s| ==> IsSpace(s[i]))
      && (r == [] || !IsSpace(r[|r| - 1]))
  {
    if |s| > 0 && IsSpace(s[|s| - 1]) {
      TrimRightShape(s[..|s| - 1]);
    }
  }

  /** `strings.TrimSpace`: the text between the leading and the trailing white space. */
  function TrimSpace(s: string): string
  {
    TrimRight(TrimLeft(s))
  }

  /** Where the trimmed text starts inside the original. */
  function TrimStart(s: string): nat
  {
    TrimLeftShape(s);
    |s| - |TrimLeft(s)|
  }

  /** What trimming leaves: a slice of the input, bordered by non-space characters. */
  lemma TrimSpaceShape(s: string)
    ensures var r := TrimSpace(s);
      && (r == [] || (!IsSpace(r[0]) && !IsSpace(r[|r| - 1])))
      && TrimStart(s) + |r| <= |s| && r == s[TrimStart(s)..TrimStart(s) + |r|]
      && (forall c :: c in r ==> c in s)
  {
    var l := TrimLeft(s);
    var r := TrimRight(l);
    TrimLeftShape(s);
    TrimRightShape(l);
    var lo := |s| - |l|;
    assert r == s[lo..lo + |r|];
    forall c | c in r ensures c in s {
      var k :| 0 <= k < |r| && r[k] == c;
      assert s[lo + k] == c;
    }
  }

  /** Trimming a text that has no white space at either end changes nothing. */
  lemma TrimSpaceNoBorder(s: string)
    requires s == [] || (!IsSpace(s[0]) && !IsSpace(s[|s| - 1]))
    ensures TrimSpace(s) == s
  {
  }

  /** Trimming leaves nothing exactly when every character is white space. */
  lemma {:induction false} TrimSpaceEmpty(s: string)
    ensures TrimSpace(s) == [] <==> forall i :: 0 <= i < |s| ==> IsSpace(s[i])
  {
    var l := TrimLeft(s);
    var r := TrimSpace(s);
    TrimLeftShape(s);
    TrimRightShape(l);
    if r == [] {
      assert l == [];
    } else {
      var j := |s| - |l|;
      assert r[0] == l[0] == s[j];
      assert !IsSpace(s[j]);
    }
  }

  /** `strings.HasPrefix`. */
  predicate HasPrefix(s: string, prefix: string)
  {
    |prefix| <= |s| && s[..|prefix|] == prefix
  }

  /** `strings.HasSuffix`. */
  predicate HasSuffix(s: string, suffix: string)
  {
    |suffix| <= |s| && s[|s| - |suffix|..] == suffix
  }

  /** A text starts with `prefix` exactly when it is `prefix` followed by something. */
  lemma HasPrefixConcat(s: string, prefix: string)
    ensures HasPrefix(s, prefix) <==> exists t :: s == prefix + t
  {
    if HasPrefix(s, prefix) {
      assert s == prefix + s[|prefix|..];
    }
    if t :| s == prefix + t {
      assert s[..|prefix|] == prefix;
    }
  }

  /** A text ends with `suffix` exactly when it is something followed by `suffix`. */
  lemma HasSuffixConcat(s: string, suffix: string)
    ensures HasSuffix(s, suffix) <==> exists t :: s == t + suffix
  {
    if HasSuffix(s, suffix) {
      assert s == s[..|s| - |suffix|] + suffix;
    }
    if t :| s == t + suffix {
      assert s[|t|..] == suffix;
    }
  }

  /** `sub` starts at position `i` of `s`. */
  predicate OccursAt(s: string, sub: string, i: nat)
  {
    i <= |s| && HasPrefix(s[i..], sub)
  }

  /** `strings.Contains`: `sub` occurs at some position of `s`. */
  predicate Contains(s: string, sub: string)
  {
    exists i: nat :: i <= |s| && OccursAt(s, sub, i)
  }

  /** A text contains `sub` exactly when it is something, then `sub`, then something. */
  lemma ContainsConcat(s: string, sub: string)
    ensures Contains(s, sub) <==> exists a, b :: s == a + sub + b
  {
    if Contains(s, sub) {
      var i: nat :| i <= |s| && OccursAt(s, sub, i);
      assert s == s[..i] + sub + s[i + |sub|..];
    }
    if a, b :| s == a + sub + b {
      ContainsMiddle(a, sub, b);
    }
  }

  /** A text contains every piece it is made of. */
  lemma ContainsMiddle(a: string, sub: string, b: string)
    ensures Contains(a + sub + b, sub)
  {
    var s := a + sub + b;
    assert s[|a|..][..|sub|] == sub;
    assert OccursAt(s, sub, |a|);
  }

  /** Searching for a one-character text is testing membership. */
  lemma ContainsChar(s: string, c: char)
    ensures Contains(s, [c]) <==> c in s
  {
    if c in s {
      var i :| 0 <= i < |s| && s[i] == c;
      assert s[i..][..1] == [c];
      assert OccursAt(s, [c], i);
    }
    if i: nat :| OccursAt(s, [c], i) {
      assert s[i] == s[i..][0] == c;
    }
  }

  /** A text that contains `sub` contains each character of `sub`. */
  lemma ContainsChars(s: string, sub: string, c: char)
    requires Contains(s, sub) && c in sub
    ensures c in s
  {
    var i: nat :| i <= |s| && OccursAt(s, sub, i);
    assert HasPrefix(s[i..], sub);
    var k :| 0 <= k < |sub| && sub[k] == c;
    assert s[i..][k] == c;
  }

  /** `strings.Split(s, sep)` for a one-character separator: the pieces between separators. */
  function Split(s: string, sep: char): (parts: seq<string>)
    ensures |parts| >= 1
    ensures forall i :: 0 <= i < |parts| ==> sep !in parts[i]
  {
    if |s| == 0 then [""]
    else
      var rest := Split(s[1..], sep);
      if s[0] == sep then [""] + rest else [[s[0]] + rest[0]] + rest[1..]
  }

  /** `strings.Join(parts, sep)`. */
  function Join(parts: seq<string>, sep: char): string
  {
    if |parts| == 0 then ""
    else if |parts| == 1 then parts[0]
    else parts[0] + [sep] + Join(parts[1..], sep)
  }

  lemma JoinCons(a: string, parts: seq<string>, sep: char)
    requires |parts| >= 1
    ensures Join([a + parts[0]] + parts[1..], sep) == a + Join(parts, sep)
  {
    var ps := [a + parts[0]] + parts[1..];
    if |parts| > 1 {
      assert ps[1..] == parts[1..];
    }
  }

  /** Joining the pieces of a split gives back the text. */
  lemma {:induction false} JoinSplit(s: string, sep: char)
    ensures Join(Split(s, sep), sep) == s
  {
    if |s| > 0 {
      var rest := Split(s[1..], sep);
      JoinSplit(s[1..], sep);
      if s[0] == sep {
        assert ([""] + rest)[1..] == rest;
        assert s == [sep] + s[1..];
      } else {
        JoinCons([s[0]], rest, sep);
        assert s == [s[0]] + s[1..];
      }
    }
  }

  lemma {:induction false} SplitNoSep(a: string, sep: char)
    requires sep !in a
    ensures Split(a, sep) == [a]
  {
    if |a| > 0 {
      SplitNoSep(a[1..], sep);
      assert a == [a[0]] + a[1..];
    }
  }

  lemma {:induction false} SplitAtSep(a: string, b: string, sep: char)
    requires sep !in a
    ensures Split(a + [sep] + b, sep) == [a] + Split(b, sep)
  {
    var s := a + [sep] + b;
    if |a| == 0 {
      assert s[1..] == b;
    } else {
      assert s[1..] == a[1..] + [sep] + b;
      SplitAtSep(a[1..], b, sep);
      assert a == [a[0]] + a[1..];
    }
  }

  /** Splitting a join of separator-free pieces gives back the pieces. */
  lemma {:induction false} SplitJoin(parts: seq<string>, sep: char)
    requires |parts| >= 1
    requires forall i :: 0 <= i < |parts| ==> sep !in parts[i]
    ensures Split(Join(parts, sep), sep) == parts
  {
    if |parts| == 1 {
      SplitNoSep(parts[0], sep);
    } else {
      SplitJoin(parts[1..], sep);
      SplitAtSep(parts[0], Join(parts[1..], sep), sep);
    }
  }

  /** The text of the pieces before piece `k`, with the separator that ends it. */
  function Before(parts: seq<string>, k: nat, sep: char): string
    requires k < |parts|
  {
    if k == 0 then "" else Join(parts[..k], sep) + [sep]
  }

  /** The text of the pieces after piece `k`, with the separator that starts it. */
  function After(parts: seq<string>, k: nat, sep: char): string
    requires k < |parts|
  {
    if k == |parts| - 1 then "" else [sep] + Join(parts[k + 1..], sep)
  }

  /** A joined text is the pieces before `k`, piece `k` and the pieces after `k`. */
  lemma {:induction false} JoinAround(parts: seq<string>, k: nat, sep: char)
    requires k < |parts|
    ensures Join(parts, sep) == Before(parts, k, sep) + parts[k] + After(parts, k, sep)
  {
    if k > 0 {
      var tail := parts[1..];
      JoinAround(tail, k - 1, sep);
      assert tail[k..] == parts[k + 1..];
      if k > 1 {
        assert parts[..k][1..] == tail[..k - 1];
      }
    }
  }

  /** Replacing piece `k` changes only the bytes of piece `k` in the joined text. */
  lemma JoinReplace(parts: seq<string>, k: nat, x: string, sep: char)
    requires k < |parts|
    ensures Join(parts[k := x], sep) == Before(parts, k, sep) + x + After(parts, k, sep)
  {
    var ps := parts[k := x];
    JoinAround(ps, k, sep);
    assert ps[..k] == parts[..k];
    assert ps[k + 1..] == parts[k + 1..];
  }

  /** The joined text is the join of its first `n` pieces followed by the rest. */
  lemma {:induction false} JoinTake(parts: seq<string>, n: nat, sep: char)
    requires 1 <= n <= |parts|
    ensures Join(parts, sep) == Join(parts[..n], sep) + After(parts, n - 1, sep)
  {
    if n == |parts| {
      assert parts[..n] == parts;
    } else if n > 1 {
      var tail := parts[1..];
      JoinTake(tail, n - 1, sep);
      assert tail[..n - 1] == parts[..n][1..];
      assert tail[n - 1..] == parts[n..];
    }
  }

  /** A prefix of the pieces joins to a prefix of the text that stops at a separator. */
  lemma JoinPrefix(parts: seq<string>, n: nat, sep: char)
    requires 1 <= n <= |parts|
    ensures HasPrefix(Join(parts, sep), Join(parts[..n], sep))
    ensures n < |parts| ==>
              (|Join(parts[..n], sep)| < |Join(parts, sep)| && Join(parts, sep)[|Join(parts[..n], sep)|] == sep)
  {
    JoinTake(parts, n, sep);
    var pre := Join(parts[..n], sep);
    assert Join(parts, sep)[..|pre|] == pre;
  }
}
