/** The Python `str` operations the modelled code relies on, as total functions
    over `seq<char>`, with the round-trip lemmas that tie splitting and joining
    together. */
module Strings {
  import opened Wrappers

  // ------------------------------------------------------------------------
  // Characters
  // ------------------------------------------------------------------------

  /** Whitespace as `str.split()` with no argument sees it: the characters
      Python's `str.isspace` accepts. */
  predicate IsSpace(c: char) {
    c == ' ' || c == '\t' || c == '\n' || c == '\r' || c as int == 0x0B || c as int == 0x0C
    || (0x1C <= c as int <= 0x1F) || c as int == 0x85 || c as int == 0xA0
    || c as int == 0x1680 || (0x2000 <= c as int <= 0x200A) || c as int == 0x2028 || c as int == 0x2029
    || c as int == 0x202F || c as int == 0x205F || c as int == 0x3000
  }

  /** Python's truthiness of an optional string: None and "" are false. */
  predicate Truthy(o: Option<string>) {
    o.Some? && |o.value| > 0
  }

  predicate IsDigit(c: char) {
    '0' <= c <= '9'
  }

  /** `str.lower()` on the ASCII letters. */
  function LowerChar(c: char): (r: char)
    ensures !('A' <= r <= 'Z')
    ensures !('A' <= c <= 'Z') ==> r == c
  {
    if 'A' <= c <= 'Z' then (c as int - 'A' as int + 'a' as int) as char else c
  }

  function ToLower(s: string): (r: string)
    ensures |r| == |s|
    ensures forall k :: 0 <= k < |s| ==> r[k] == LowerChar(s[k])
  {
    if |s| == 0 then [] else [LowerChar(s[0])] + ToLower(s[1..])
  }

  lemma ToLowerAppend(a: string, b: string)
    ensures ToLower(a + b) == ToLower(a) + ToLower(b)
  {
  }

  /** Text without capital letters is its own lower case. */
  lemma LowerCaseUnchanged(s: string)
    requires forall k :: 0 <= k < |s| ==> !('A' <= s[k] <= 'Z')
    ensures ToLower(s) == s
  {
  }

  lemma ToLowerIdempotent(s: string)
    ensures ToLower(ToLower(s)) == ToLower(s)
  {
  }

  // ------------------------------------------------------------------------
  // Containment and search
  // ------------------------------------------------------------------------

  /** `pat in s` for strings: `pat` occurs as a contiguous block of `s`. */
  predicate Contains(s: string, pat: string)
    decreases |s|
  {
    pat <= s || (|s| > 0 && Contains(s[1..], pat))
  }

  /** A string contains only patterns no longer than itself. */
  lemma {:induction false} ContainsLength(s: string, pat: string)
    requires Contains(s, pat)
    ensures |pat| <= |s|
    decreases |s|
  {
    if !(pat <= s) {
      ContainsLength(s[1..], pat);
    }
  }

  /** Text added on either side keeps an occurrence. */
  lemma {:induction false} ContainsInfix(a: string, s: string, b: string, pat: string)
    requires Contains(s, pat)
    ensures Contains(a + s + b, pat)
    decreases |a|
  {
    if |a| == 0 {
      ContainsAppend(s, b, pat);
      assert a + s + b == s + b;
    } else {
      ContainsInfix(a[1..], s, b, pat);
      assert (a + s + b)[1..] == a[1..] + s + b;
    }
  }

  lemma {:induction false} ContainsAppend(s: string, b: string, pat: string)
    requires Contains(s, pat)
    ensures Contains(s + b, pat)
    decreases |s|
  {
    if pat <= s {
      assert (s + b)[..|pat|] == s[..|pat|];
    } else {
      ContainsAppend(s[1..], b, pat);
      assert (s + b)[1..] == s[1..] + b;
    }
  }

  /** A pattern holding a character the text lacks does not occur in it. */
  lemma {:induction false} MissingCharNotContained(s: string, pat: string, c: char)
    requires c in pat && c !in s
    ensures !Contains(s, pat)
    decreases |s|
  {
    if |s| > 0 {
      assert forall x :: x in s[1..] ==> x in s;
      MissingCharNotContained(s[1..], pat, c);
    }
  }

  /** Every string contains itself. */
  lemma ContainsSelf(s: string)
    ensures Contains(s, s)
  {
  }

  /** `s.startswith(p)`. */
  predicate StartsWith(s: string, p: string) {
    p <= s
  }

  /** `s.endswith(p)`. */
  predicate EndsWith(s: string, p: string) {
    |p| <= |s| && s[|s| - |p|..] == p
  }

  /** Index of the first occurrence of `pat` in `s` (`str.find`, with None for -1). */
  function Find(s: string, pat: string): (r: Option<nat>)
    ensures r.Some? ==> r.value + |pat| <= |s| && s[r.value..r.value + |pat|] == pat
    ensures r.Some? ==> forall k :: 0 <= k < r.value ==> !(pat <= s[k..])
    ensures r.None? ==> forall k :: 0 <= k <= |s| ==> !(pat <= s[k..])
    decreases |s|
  {
    if pat <= s then Some(0)
    else if |s| == 0 then None
    else
      match Find(s[1..], pat)
      case None =>
        assert forall k :: 0 <= k <= |s| ==> !(pat <= s[k..]) by {
          forall k | 1 <= k <= |s| ensures !(pat <= s[k..]) {
            assert s[k..] == s[1..][k - 1..];
          }
        }
        None
      case Some(i) =>
        assert forall k :: 0 <= k < i + 1 ==> !(pat <= s[k..]) by {
          forall k | 1 <= k < i + 1 ensures !(pat <= s[k..]) {
            assert s[k..] == s[1..][k - 1..];
          }
        }
        assert s[1..][i..i + |pat|] == s[i + 1..i + 1 + |pat|];
        Some(i + 1)
  }

  /** `s.replace(pat, rep, 1)`: the first occurrence only. */
  function ReplaceFirst(s: string, pat: string, rep: string): (r: string)
    ensures Find(s, pat).None? ==> r == s
    ensures Find(s, pat).Some? ==>
              var k := Find(s, pat).value; r == s[..k] + rep + s[k + |pat|..]
  {
    match Find(s, pat)
    case None => s
    case Some(k) => s[..k] + rep + s[k + |pat|..]
  }

  /** `s.replace(pat, rep)` for a non-empty `pat`: every non-overlapping
      occurrence, scanning left to right. */
  function ReplaceAll(s: string, pat: string, rep: string): string
    requires |pat| > 0
    decreases |s|
  {
    if |s| < |pat| then s
    else if s[..|pat|] == pat then rep + ReplaceAll(s[|pat|..], pat, rep)
    else [s[0]] + ReplaceAll(s[1..], pat, rep)
  }

  /** A character absent from the input and from the replacement stays absent. */
  lemma {:induction false} ReplaceAllKeepsAbsent(s: string, pat: string, rep: string, c: char)
    requires |pat| > 0 && c !in s && c !in rep
    ensures c !in ReplaceAll(s, pat, rep)
    decreases |s|
  {
    if |s| < |pat| {
    } else if s[..|pat|] == pat {
      ReplaceAllKeepsAbsent(s[|pat|..], pat, rep, c);
    } else {
      ReplaceAllKeepsAbsent(s[1..], pat, rep, c);
    }
  }

  /** Text without the pattern is left as it is. */
  lemma {:induction false} ReplaceAllAbsent(s: string, pat: string, rep: string)
    requires |pat| > 0 && !Contains(s, pat)
    ensures ReplaceAll(s, pat, rep) == s
    decreases |s|
  {
    if |s| >= |pat| {
      assert s[..|pat|] != pat;
      ReplaceAllAbsent(s[1..], pat, rep);
      assert s == [s[0]] + s[1..];
    }
  }

  /** Replacing a single character by text without it removes it entirely. */
  lemma {:induction false} ReplaceAllRemovesChar(s: string, c: char, rep: string)
    requires c !in rep
    ensures c !in ReplaceAll(s, [c], rep)
    decreases |s|
  {
    if |s| < 1 {
    } else if s[..1] == [c] {
      ReplaceAllRemovesChar(s[1..], c, rep);
    } else {
      assert s[0] != c by { assert s[..1] == [s[0]]; }
      ReplaceAllRemovesChar(s[1..], c, rep);
    }
  }

  // ------------------------------------------------------------------------
  // Joining
  // ------------------------------------------------------------------------

  /** `sep.join(parts)`. */
  function JoinWith(sep: string, parts: seq<string>): string
    decreases |parts|
  {
    if |parts| == 0 then ""
    else if |parts| == 1 then parts[0]
    else parts[0] + sep + JoinWith(sep, parts[1..])
  }

  /** Appending one more part adds exactly one separator in front of it. */
  lemma {:induction false} JoinWithSnoc(sep: string, parts: seq<string>, last: string)
    requires |parts| > 0
    ensures JoinWith(sep, parts + [last]) == JoinWith(sep, parts) + sep + last
    decreases |parts|
  {
    if |parts| == 1 {
      assert parts + [last] == [parts[0], last];
    } else {
      assert (parts + [last])[1..] == parts[1..] + [last];
      JoinWithSnoc(sep, parts[1..], last);
    }
  }

  // ------------------------------------------------------------------------
  // Splitting on a single character: `s.split(c)`
  // ------------------------------------------------------------------------

  function SplitOn(s: string, c: char): (r: seq<string>)
    ensures |r| >= 1
    ensures forall k :: 0 <= k < |r| ==> c !in r[k]
    decreases |s|
  {
    if |s| == 0 then [""]
    else
      var rest := SplitOn(s[1..], c);
      if s[0] == c then [""] + rest else [[s[0]] + rest[0]] + rest[1..]
  }

  /** Joining the pieces back with the separator restores the input. */
  lemma {:induction false} JoinSplitOn(s: string, c: char)
    ensures JoinWith([c], SplitOn(s, c)) == s
    decreases |s|
  {
    if |s| > 0 {
      var rest := SplitOn(s[1..], c);
      JoinSplitOn(s[1..], c);
      if s[0] == c {
        assert SplitOn(s, c) == [""] + rest;
        assert ([""] + rest)[1..] == rest;
        assert s == [c] + s[1..];
      } else {
        var r := SplitOn(s, c);
        assert r == [[s[0]] + rest[0]] + rest[1..];
        if |rest| == 1 {
          assert s == [s[0]] + s[1..];
        } else {
          assert r[1..] == rest[1..];
          assert JoinWith([c], rest) == rest[0] + [c] + JoinWith([c], rest[1..]);
          assert s == [s[0]] + s[1..];
        }
      }
    }
  }

  /** Splitting a join of separator-free parts recovers the parts. */
  lemma {:induction false} SplitOnJoin(parts: seq<string>, c: char)
    requires |parts| >= 1
    requires forall k :: 0 <= k < |parts| ==> c !in parts[k]
    ensures SplitOn(JoinWith([c], parts), c) == parts
    decreases |parts|, |parts[0]|
  {
    if |parts[0]| > 0 {
      var p := parts[0];
      var parts' := [p[1..]] + parts[1..];
      assert parts'[0] == p[1..] && parts'[1..] == parts[1..];
      assert forall k :: 0 <= k < |parts'| ==> c !in parts'[k] by {
        forall k | 0 <= k < |parts'| ensures c !in parts'[k] {
          if k == 0 {
            assert forall x :: x in p[1..] ==> x in p;
          } else {
            assert parts'[k] == parts[k];
          }
        }
      }
      SplitOnJoin(parts', c);
      SplitOnJoinFirstChar(parts, c);
    } else if |parts| > 1 {
      var tail := parts[1..];
      assert forall k :: 0 <= k < |tail| ==> c !in tail[k] by {
        forall k | 0 <= k < |tail| ensures c !in tail[k] {
          assert tail[k] == parts[k + 1];
        }
      }
      SplitOnJoin(tail, c);
      SplitOnJoinEmptyFirst(parts, c);
    }
  }

  /** The step of `SplitOnJoin` that moves the first character of a non-empty
      first part out of the join. */
  lemma SplitOnJoinFirstChar(parts: seq<string>, c: char)
    requires |parts| >= 1 && |parts[0]| > 0 && c !in parts[0]
    requires SplitOn(JoinWith([c], [parts[0][1..]] + parts[1..]), c) == [parts[0][1..]] + parts[1..]
    ensures SplitOn(JoinWith([c], parts), c) == parts
  {
    var p := parts[0];
    var parts' := [p[1..]] + parts[1..];
    assert parts'[0] == p[1..] && parts'[1..] == parts[1..];
    var j' := JoinWith([c], parts');
    assert JoinWith([c], parts) == [p[0]] + j' by {
      assert p == [p[0]] + p[1..];
    }
    assert p[0] != c by { assert p[0] in p; }
    SplitOnCons(p[0], j', c);
    assert [p[0]] + parts'[0] == parts[0];
    assert parts == [parts[0]] + parts[1..];
  }

  /** The step of `SplitOnJoin` for an empty first part: the join starts with
      the separator. */
  lemma SplitOnJoinEmptyFirst(parts: seq<string>, c: char)
    requires |parts| > 1 && parts[0] == ""
    requires SplitOn(JoinWith([c], parts[1..]), c) == parts[1..]
    ensures SplitOn(JoinWith([c], parts), c) == parts
  {
    var tail := parts[1..];
    assert JoinWith([c], parts) == [c] + JoinWith([c], tail);
    SplitOnSeparator(JoinWith([c], tail), c);
    assert parts == [""] + tail;
  }

  /** A leading character other than the separator joins the first piece. */
  lemma SplitOnCons(x: char, s: string, c: char)
    requires x != c
    ensures SplitOn([x] + s, c) == [[x] + SplitOn(s, c)[0]] + SplitOn(s, c)[1..]
  {
    assert ([x] + s)[0] == x && ([x] + s)[1..] == s;
  }

  /** A leading separator ends an empty first piece. */
  lemma SplitOnSeparator(s: string, c: char)
    ensures SplitOn([c] + s, c) == [""] + SplitOn(s, c)
  {
    assert ([c] + s)[0] == c && ([c] + s)[1..] == s;
  }

  /** `s.split(c, 1)`: the text before and after the first `c`, if any. */
  function SplitOnce(s: string, c: char): (r: Option<(string, string)>)
    ensures r.None? <==> c !in s
    ensures r.Some? ==> s == r.value.0 + [c] + r.value.1 && c !in r.value.0
  {
    match Find(s, [c])
    case None =>
      assert forall k :: 0 <= k < |s| ==> s[k] != c by {
        forall k | 0 <= k < |s| ensures s[k] != c {
          assert !([c] <= s[k..]);
        }
      }
      None
    case Some(k) =>
      assert s[k] == c by { assert s[k..k + 1] == [c]; }
      assert c !in s[..k] by {
        forall i | 0 <= i < k ensures s[i] != c {
          assert !([c] <= s[i..]);
        }
      }
      assert s == s[..k] + [c] + s[k + 1..];
      Some((s[..k], s[k + 1..]))
  }

  // ------------------------------------------------------------------------
  // Splitting on whitespace: `s.split()`
  // ------------------------------------------------------------------------

  predicate IsWord(w: string) {
    |w| > 0 && forall k :: 0 <= k < |w| ==> !IsSpace(w[k])
  }

  /** Length of the run of non-space characters at the start of `s`. */
  function WordLength(s: string): (n: nat)
    ensures n <= |s|
    ensures forall k :: 0 <= k < n ==> !IsSpace(s[k])
    ensures n < |s| ==> IsSpace(s[n])
    decreases |s|
  {
    if |s| == 0 || IsSpace(s[0]) then 0 else 1 + WordLength(s[1..])
  }

  function Words(s: string): (r: seq<string>)
    ensures forall k :: 0 <= k < |r| ==> IsWord(r[k])
    decreases |s|
  {
    if |s| == 0 then []
    else if IsSpace(s[0]) then Words(s[1..])
    else
      var n := WordLength(s);
      [s[..n]] + Words(s[n..])
  }

  lemma WordLengthOfWordThenSpace(w: string, rest: string)
    requires IsWord(w)
    ensures WordLength(w + " " + rest) == |w|
    ensures WordLength(w) == |w|
  {
    var s := w + " " + rest;
    assert forall k :: 0 <= k < |w| ==> s[k] == w[k] && !IsSpace(s[k]);
    assert IsSpace(s[|w|]);
  }

  /** `" ".join` of proper words splits back into the same words. */
  lemma {:induction false} WordsOfJoin(ws: seq<string>)
    requires forall k :: 0 <= k < |ws| ==> IsWord(ws[k])
    ensures Words(JoinWith(" ", ws)) == ws
    decreases |ws|
  {
    if |ws| == 0 {
    } else if |ws| == 1 {
      var w := ws[0];
      WordLengthOfWordThenSpace(w, "");
      assert w[..|w|] == w;
      assert w[|w|..] == [];
    } else {
      var w := ws[0];
      var rest := JoinWith(" ", ws[1..]);
      var s := w + " " + rest;
      assert JoinWith(" ", ws) == s;
      WordLengthOfWordThenSpace(w, rest);
      assert s[..|w|] == w;
      assert s[|w|..] == " " + rest;
      assert (" " + rest)[1..] == rest;
      WordsOfJoin(ws[1..]);
      assert ws == [w] + ws[1..];
    }
  }

  // ------------------------------------------------------------------------
  // Numbers as text: `str(n)`
  // ------------------------------------------------------------------------

  function DigitChar(d: nat): (c: char)
    requires d < 10
    ensures IsDigit(c)
  {
    ('0' as int + d) as char
  }

  function NatToString(n: nat): (r: string)
    ensures |r| > 0
    ensures forall k :: 0 <= k < |r| ==> IsDigit(r[k])
    decreases n
  {
    if n < 10 then [DigitChar(n)] else NatToString(n / 10) + [DigitChar(n % 10)]
  }

  function IntToString(i: int): (r: string)
    ensures |r| > 0
    ensures i >= 0 ==> r == NatToString(i)
    ensures i < 0 ==> r == "-" + NatToString(-i)
  {
    if i < 0 then "-" + NatToString(-i) else NatToString(i)
  }

  /** Reads back a string of decimal digits. */
  function DigitsValue(s: string): nat
    requires forall k :: 0 <= k < |s| ==> IsDigit(s[k])
    decreases |s|
  {
    if |s| == 0 then 0
    else
      assert IsDigit(s[|s| - 1]);
      DigitsValue(s[..|s| - 1]) * 10 + (s[|s| - 1] as int - '0' as int)
  }

  lemma {:induction false} NatToStringRoundTrip(n: nat)
    ensures DigitsValue(NatToString(n)) == n
    decreases n
  {
    var s := NatToString(n);
    if n >= 10 {
      NatToStringRoundTrip(n / 10);
      assert s[..|s| - 1] == NatToString(n / 10);
    }
  }
}
