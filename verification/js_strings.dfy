/**
 The JavaScript string operations the services and the reports page rely on:
 `trim`, `toUpperCase`, `join`, `startsWith`, `replace` with a string pattern
 (first occurrence only) and `replace` with a global regular expression `/pat\n?/g`.
 */
module JsStrings {
  import opened Wrappers

  /** The code points `String.prototype.trim` removes: ECMAScript WhiteSpace and LineTerminator. */
  predicate IsWhitespace(c: char) {
    || c == '\t' || c == '\n' || c == '\U{000B}' || c == '\U{000C}' || c == '\r' || c == ' '
    || c == '\U{00A0}' || c == '\U{1680}' || ('\U{2000}' <= c <= '\U{200A}')
    || c == '\U{2028}' || c == '\U{2029}' || c == '\U{202F}' || c == '\U{205F}'
    || c == '\U{3000}' || c == '\U{FEFF}'
  }

  ghost predicate AllWhitespace(s: string) {
    forall i :: 0 <= i < |s| ==> IsWhitespace(s[i])
  }

  /** Drops the leading whitespace of `s`. */
  function TrimStart(s: string): string
    decreases |s|
  {
    if |s| > 0 && IsWhitespace(s[0]) then TrimStart(s[1..]) else s
  }

  /** Drops the trailing whitespace of `s`. */
  function TrimEnd(s: string): string
    decreases |s|
  {
    if |s| > 0 && IsWhitespace(s[|s| - 1]) then TrimEnd(s[..|s| - 1]) else s
  }

  /** `TrimStart` keeps a suffix of `s` that does not start with whitespace, and drops only whitespace. */
  lemma {:induction false} TrimStartSpec(s: string)
    ensures var r := TrimStart(s);
      && |r| <= |s| && r == s[|s| - |r|..]
      && AllWhitespace(s[..|s| - |r|])
      && (r == [] || !IsWhitespace(r[0]))
    decreases |s|
  {
    if |s| > 0 && IsWhitespace(s[0]) {
      TrimStartSpec(s[1..]);
      var r := TrimStart(s);
      assert r == TrimStart(s[1..]);
      assert s[1..][|s| - 1 - |r|..] == s[|s| - |r|..];
      var dropped := s[..|s| - |r|];
      forall k | 0 <= k < |dropped| ensures IsWhitespace(dropped[k]) {
        if k > 0 {
          assert dropped[k] == s[1..][..|s| - 1 - |r|][k - 1];
        }
      }
    }
  }

  /** `TrimEnd` keeps a prefix of `s` that does not end with whitespace, and drops only whitespace. */
  lemma {:induction false} TrimEndSpec(s: string)
    ensures var r := TrimEnd(s);
      && |r| <= |s| && r == s[..|r|]
      && AllWhitespace(s[|r|..])
      && (r == [] || !IsWhitespace(r[|r| - 1]))
    decreases |s|
  {
    if |s| > 0 && IsWhitespace(s[|s| - 1]) {
      var s' := s[..|s| - 1];
      TrimEndSpec(s');
      var r := TrimEnd(s);
      assert r == TrimEnd(s');
      assert s'[..|r|] == s[..|r|];
      var dropped := s[|r|..];
      forall k | 0 <= k < |dropped| ensures IsWhitespace(dropped[k]) {
        if k < |s| - 1 - |r| {
          assert dropped[k] == s'[|r|..][k];
        }
      }
    }
  }

  /** `s.trim()`: the middle of `s` once the whitespace around it is cut off (see `TrimSpec`). */
  function Trim(s: string): string
  {
    TrimEnd(TrimStart(s))
  }

  /** What `trim` keeps is no longer than `s`, neither starts nor ends with whitespace, and is empty exactly for a whitespace-only string. */
  lemma TrimSpec(s: string)
    ensures |Trim(s)| <= |s|
    ensures var r := Trim(s); r == [] || (!IsWhitespace(r[0]) && !IsWhitespace(r[|r| - 1]))
    ensures Trim(s) == [] <==> AllWhitespace(s)
  {
    TrimStartSpec(s);
    TrimEndSpec(TrimStart(s));
    TrimEmptyIff(s);
  }

  /** What `trim` cuts off on either side is whitespace, and what it keeps is a contiguous piece of `s`. */
  lemma TrimIsInfix(s: string)
    ensures var t := TrimStart(s); var r := Trim(s); var i := |s| - |t|;
      0 <= i <= i + |r| <= |s| && r == s[i..i + |r|] && AllWhitespace(s[..i]) && AllWhitespace(s[i + |r|..])
  {
    var t := TrimStart(s);
    TrimStartSpec(s);
    TrimEndSpec(t);
    var i := |s| - |t|;
    var r := TrimEnd(t);
    assert s[i + |r|..] == t[|r|..];
  }

  lemma TrimEmptyIff(s: string)
    ensures TrimEnd(TrimStart(s)) == [] <==> AllWhitespace(s)
  {
    TrimStartSpec(s);
    TrimEndSpec(TrimStart(s));
    var t := TrimStart(s);
    var i := |s| - |t|;
    var r := TrimEnd(t);
    assert |t| > 0 ==> t[0] == s[i];
    assert |r| > 0 ==> r[0] == t[0];
    assert r == [] ==> t[..] == t[|r|..];
    assert t == [] ==> s[..i] == s;
  }

  /** A non-empty trim starts and ends with a character that is not white space. */
  lemma TrimEdges(s: string)
    ensures Trim(s) != "" ==> !IsWhitespace(Trim(s)[0]) && !IsWhitespace(Trim(s)[|Trim(s)| - 1])
  {
    TrimSpec(s);
  }

  /** Trimming introduces no character: a character absent from `s` is absent from `s.trim()`. */
  lemma TrimKeepsOut(s: string, c: char)
    requires c !in s
    ensures c !in Trim(s)
  {
    TrimIsInfix(s);
    TrimSpec(s);
    var r := Trim(s);
    var i := |s| - |TrimStart(s)|;
    assert forall k :: 0 <= k < |r| ==> r[k] == s[i + k];
  }

  /** Trimming twice is trimming once. */
  lemma TrimIdempotent(s: string)
    ensures Trim(Trim(s)) == Trim(s)
  {
    TrimSpec(s);
    var t := Trim(s);
    TrimSpec(t);
    assert TrimStart(t) == t;
    assert TrimEnd(t) == t;
  }

  /** A string with no whitespace at either end is its own trim. */
  lemma TrimKeepsTrimmed(s: string)
    requires |s| > 0 && !IsWhitespace(s[0]) && !IsWhitespace(s[|s| - 1])
    ensures Trim(s) == s
  {
    assert TrimStart(s) == s;
    assert TrimEnd(s) == s;
  }

  /** `toUpperCase` on one code point, for the ASCII letters. */
  function UpperChar(c: char): char {
    if 'a' <= c <= 'z' then (c as int - 32) as char else c
  }

  /** `s.toUpperCase()`, code point by code point. */
  function ToUpper(s: string): (r: string)
    ensures |r| == |s|
    ensures forall i :: 0 <= i < |s| ==> r[i] == UpperChar(s[i])
  {
    if |s| == 0 then "" else [UpperChar(s[0])] + ToUpper(s[1..])
  }

  /** An upper-cased string holds no lower-case ASCII letter; in particular it is never `"time"`. */
  lemma UpperHasNoLowercase(s: string)
    ensures forall i :: 0 <= i < |ToUpper(s)| ==> !('a' <= ToUpper(s)[i] <= 'z')
    ensures ToUpper(s) != "time"
  {
    if ToUpper(s) == "time" {
      assert ToUpper(s)[0] == 't';
    }
  }

  /** Upper-casing introduces no character that is not an upper-case letter. */
  lemma UpperKeepsOut(s: string, c: char)
    requires c !in s && !('A' <= c <= 'Z')
    ensures c !in ToUpper(s)
  {
    var u := ToUpper(s);
    forall i | 0 <= i < |u| ensures u[i] != c {
      assert u[i] == UpperChar(s[i]);
    }
  }

  /** Upper-casing is idempotent. */
  lemma ToUpperIdempotent(s: string)
    ensures ToUpper(ToUpper(s)) == ToUpper(s)
  {
  }

  /** `parts.join(sep)`: the empty list joins to the empty string. */
  function Join(parts: seq<string>, sep: char): string
  {
    if |parts| == 0 then ""
    else if |parts| == 1 then parts[0]
    else parts[0] + [sep] + Join(parts[1..], sep)
  }

  /** `s.split(sep)`, the reading side of a comma-separated query parameter. */
  function Split(s: string, sep: char): (r: seq<string>)
    ensures |r| >= 1
  {
    if |s| == 0 then [""]
    else
      var rest := Split(s[1..], sep);
      if s[0] == sep then [""] + rest else [[s[0]] + rest[0]] + rest[1..]
  }

  lemma {:induction false} SplitWithoutSeparator(a: string, sep: char)
    requires sep !in a
    ensures Split(a, sep) == [a]
  {
    if |a| > 0 {
      SplitWithoutSeparator(a[1..], sep);
      assert [a[0]] + a[1..] == a;
    }
  }

  lemma {:induction false} SplitFirstPart(a: string, b: string, sep: char)
    requires sep !in a
    ensures Split(a + [sep] + b, sep) == [a] + Split(b, sep)
  {
    if |a| == 0 {
      assert a + [sep] + b == [sep] + b;
      assert ([sep] + b)[1..] == b;
    } else {
      SplitFirstPart(a[1..], b, sep);
      assert (a + [sep] + b)[1..] == a[1..] + [sep] + b;
      assert [a[0]] + a[1..] == a;
    }
  }

  /** Joining parts that do not contain the separator can be undone by splitting. */
  lemma {:induction false} SplitJoin(parts: seq<string>, sep: char)
    requires |parts| >= 1
    requires forall i :: 0 <= i < |parts| ==> sep !in parts[i]
    ensures Split(Join(parts, sep), sep) == parts
  {
    if |parts| == 1 {
      SplitWithoutSeparator(parts[0], sep);
    } else {
      SplitJoin(parts[1..], sep);
      SplitFirstPart(parts[0], Join(parts[1..], sep), sep);
      assert [parts[0]] + parts[1..] == parts;
    }
  }

  predicate OccursAt(s: string, pat: string, i: nat) {
    i + |pat| <= |s| && s[i..i + |pat|] == pat
  }

  ghost predicate NoOccurrence(s: string, pat: string) {
    forall i: nat :: !OccursAt(s, pat, i)
  }

  /** `i` is where `pat` first occurs in `s`. */
  ghost predicate FirstOccurrence(s: string, pat: string, i: nat) {
    OccursAt(s, pat, i) && forall j: nat :: j < i ==> !OccursAt(s, pat, j)
  }

  /** The first index at or after `from` where `pat` occurs. */
  function IndexFrom(s: string, pat: string, from: nat): (r: Option<nat>)
    ensures r.Some? ==> from <= r.value && OccursAt(s, pat, r.value)
    ensures r.Some? ==> forall j: nat :: from <= j < r.value ==> !OccursAt(s, pat, j)
    ensures r.None? ==> forall j: nat :: from <= j ==> !OccursAt(s, pat, j)
    decreases |s| - from
  {
    if from + |pat| > |s| then None
    else if OccursAt(s, pat, from) then Some(from)
    else IndexFrom(s, pat, from + 1)
  }

  /** `s.indexOf(pat)`, with `None` for -1. */
  function IndexOf(s: string, pat: string): (r: Option<nat>)
    ensures r.Some? ==> FirstOccurrence(s, pat, r.value)
    ensures r.None? <==> NoOccurrence(s, pat)
  {
    IndexFrom(s, pat, 0)
  }

  /** `s.replace(pat, repl)` with a string pattern: only the first occurrence is replaced. */
  function ReplaceFirst(s: string, pat: string, repl: string): (r: string)
    ensures NoOccurrence(s, pat) ==> r == s
    ensures forall i: nat :: FirstOccurrence(s, pat, i) ==> r == s[..i] + repl + s[i + |pat|..]
  {
    match IndexOf(s, pat)
    case None => s
    case Some(i) => s[..i] + repl + s[i + |pat|..]
  }

  /** A template whose only placeholder sits after a prefix free of the placeholder's first character is filled in place. */
  lemma ReplaceSinglePlaceholder(prefix: string, pat: string, suffix: string, repl: string)
    requires |pat| > 0 && pat[0] !in prefix
    ensures ReplaceFirst(prefix + pat + suffix, pat, repl) == prefix + repl + suffix
  {
    var s := prefix + pat + suffix;
    var i := |prefix|;
    assert OccursAt(s, pat, i);
    forall j: nat | j < i ensures !OccursAt(s, pat, j) {
      assert s[j] == prefix[j];
    }
    assert FirstOccurrence(s, pat, i);
    assert s[..i] == prefix;
    assert s[i + |pat|..] == suffix;
  }

  /** `s.replace(/pat\n?/g, "")`: every match of `pat`, together with a newline right after it, is cut out, scanning left to right. */
  function StripAll(s: string, pat: string): (r: string)
    requires |pat| > 0
    ensures |r| <= |s|
    decreases |s|
  {
    if |s| == 0 then ""
    else if pat <= s then
      var rest := s[|pat|..];
      if |rest| > 0 && rest[0] == '\n' then StripAll(rest[1..], pat) else StripAll(rest, pat)
    else [s[0]] + StripAll(s[1..], pat)
  }

  /** A piece free of the pattern's first character passes through the scan unchanged. */
  lemma {:induction false} StripAllKeepsPlainPrefix(b: string, t: string, pat: string)
    requires |pat| > 0 && pat[0] !in b
    ensures StripAll(b + t, pat) == b + StripAll(t, pat)
  {
    if |b| > 0 {
      assert !(pat <= b + t) by {
        assert (b + t)[0] == b[0];
      }
      assert (b + t)[1..] == b[1..] + t;
      StripAllKeepsPlainPrefix(b[1..], t, pat);
      assert [b[0]] + b[1..] == b;
    } else {
      assert b + t == t;
    }
  }

  /** A match at the head of the text is cut out, together with one line break right after it. */
  lemma StripAllDropsMatch(pat: string, t: string)
    requires |pat| > 0
    ensures StripAll(pat + t, pat) == StripAll(if |t| > 0 && t[0] == '\n' then t[1..] else t, pat)
  {
    assert pat <= pat + t;
    assert (pat + t)[|pat|..] == t;
  }

  /** Text in which no match starts is copied through unchanged, and the scan carries on after it. */
  lemma {:induction false} StripAllKeepsUnmatched(a: string, t: string, pat: string)
    requires |pat| > 0
    requires forall i: nat :: i < |a| ==> !OccursAt(a + t, pat, i)
    ensures StripAll(a + t, pat) == a + StripAll(t, pat)
  {
    if |a| > 0 {
      assert !OccursAt(a + t, pat, 0);
      assert !(pat <= a + t);
      var s := a + t;
      assert s[1..] == a[1..] + t;
      forall i: nat | i < |a[1..]| ensures !OccursAt(a[1..] + t, pat, i) {
        assert !OccursAt(s, pat, i + 1);
        if i + |pat| <= |s[1..]| {
          assert s[1..][i..i + |pat|] == s[i + 1..i + 1 + |pat|];
        }
      }
      StripAllKeepsUnmatched(a[1..], t, pat);
      assert [a[0]] + a[1..] == a;
    } else {
      assert a + t == t;
    }
  }

  /** Text without a match is left as it is. */
  lemma StripAllWithoutMatch(s: string, pat: string)
    requires |pat| > 0
    ensures NoOccurrence(s, pat) ==> StripAll(s, pat) == s
  {
    if NoOccurrence(s, pat) {
      assert s + "" == s;
      StripAllKeepsUnmatched(s, "", pat);
    }
  }

  const Fence: string := "```"

  lemma StripFenceHead(t: string)
    ensures var r := StripAll(t, Fence); |r| > 0 && r[0] == '`' ==> |t| > 0 && t[0] == '`'
  {
  }

  lemma StripFenceHead2(t: string)
    ensures var r := StripAll(t, Fence); |r| > 1 && r[0] == '`' && r[1] == '`' ==> |t| > 1 && t[0] == '`' && t[1] == '`'
  {
    var r := StripAll(t, Fence);
    if |r| > 1 && r[0] == '`' && r[1] == '`' && !(Fence <= t) {
      StripFenceHead(t[1..]);
    }
  }

  /** After `replace(/```\n?/g, "")` no code fence is left, even where removals bring backticks together. */
  lemma {:induction false} StripFenceLeavesNoFence(s: string)
    ensures NoOccurrence(StripAll(s, Fence), Fence)
    decreases |s|
  {
    var r := StripAll(s, Fence);
    if |s| == 0 {
    } else if Fence <= s {
      var rest := s[3..];
      if |rest| > 0 && rest[0] == '\n' {
        StripFenceLeavesNoFence(rest[1..]);
      } else {
        StripFenceLeavesNoFence(rest);
      }
    } else {
      var r' := StripAll(s[1..], Fence);
      StripFenceLeavesNoFence(s[1..]);
      assert r == [s[0]] + r';
      forall i: nat ensures !OccursAt(r, Fence, i) {
        if i + 3 <= |r| {
          if i == 0 {
            assert r[0..3] == [s[0]] + r'[..2];
            if s[0] == '`' {
              assert |s| < 3 || s[1] != '`' || s[2] != '`' by {
                assert |s| >= 3 ==> s[..3] == [s[0], s[1], s[2]];
              }
              StripFenceHead2(s[1..]);
              assert r'[..2] != "``";
            } else {
              assert r[0] != '`';
            }
          } else {
            assert r[i..i + 3] == r'[i - 1..i + 2];
            assert !OccursAt(r', Fence, i - 1);
          }
        }
      }
    }
  }
}
