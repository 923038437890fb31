/** The handful of Python `str` operations the transcript code relies on:
    `strip()`, `startswith`, `in`, `isdigit()`, `split('\n')` and `join`. */
module Text {

  /** Python's `str.isspace()` for one character: the characters that
      `str.strip()` with no argument removes. */
  predicate IsSpace(c: char)
  {
    var n := c as int;
    (9 <= n <= 13) || (28 <= n <= 32) || n == 0x85 || n == 0xA0 || n == 0x1680
    || (0x2000 <= n <= 0x200A) || n == 0x2028 || n == 0x2029 || n == 0x202F
    || n == 0x205F || n == 0x3000
  }

  predicate AllSpace(s: string)
  {
    forall i :: 0 <= i < |s| ==> IsSpace(s[i])
  }

  /** Number of leading whitespace characters. */
  function LeadingSpace(s: string): (k: nat)
    ensures k <= |s|
  {
    if |s| == 0 || !IsSpace(s[0]) then 0 else 1 + LeadingSpace(s[1..])
  }

  /** The first `LeadingSpace(s)` characters are whitespace and the next one is not. */
  lemma {:induction false} LeadingSpaceMeaning(s: string)
    ensures AllSpace(s[..LeadingSpace(s)])
    ensures LeadingSpace(s) < |s| ==> !IsSpace(s[LeadingSpace(s)])
    decreases |s|
  {
    if |s| > 0 && IsSpace(s[0]) {
      var k := LeadingSpace(s);
      LeadingSpaceMeaning(s[1..]);
      assert forall i :: 1 <= i < k ==> s[..k][i] == s[1..][..k - 1][i - 1];
    }
  }

  /** Number of trailing whitespace characters. */
  function TrailingSpace(s: string): (k: nat)
    ensures k <= |s|
  {
    if |s| == 0 || !IsSpace(s[|s| - 1]) then 0 else 1 + TrailingSpace(s[..|s| - 1])
  }

  /** The last `TrailingSpace(s)` characters are whitespace and the one before is not. */
  lemma {:induction false} TrailingSpaceMeaning(s: string)
    ensures AllSpace(s[|s| - TrailingSpace(s)..])
    ensures TrailingSpace(s) < |s| ==> !IsSpace(s[|s| - 1 - TrailingSpace(s)])
    decreases |s|
  {
    if |s| > 0 && IsSpace(s[|s| - 1]) {
      var t := s[..|s| - 1];
      var k := TrailingSpace(s);
      TrailingSpaceMeaning(t);
      assert forall i :: |s| - k <= i < |s| - 1 ==> s[i] == t[i];
    }
  }

  /** Python's `s.strip()`. What it means is `StripMeaning`; the function's
      own contract is kept small because it sits under every line filter. */
  function Strip(s: string): (r: string)
    ensures |r| <= |s|
  {
    var i := LeadingSpace(s);
    if i == |s| then "" else s[i..|s| - TrailingSpace(s[i..])]
  }

  /** `Strip(s)` is the slice left once leading and trailing whitespace is
      removed: the first ensures says it is such a slice, the last that nothing
      more could be removed; together they determine the result. */
  lemma StripMeaning(s: string)
    ensures exists i, j :: 0 <= i <= j <= |s| && Strip(s) == s[i..j] && AllSpace(s[..i]) && AllSpace(s[j..])
    ensures forall c :: c in Strip(s) ==> c in s
    ensures Strip(s) != "" ==> !IsSpace(Strip(s)[0]) && !IsSpace(Strip(s)[|Strip(s)| - 1])
  {
    var i := LeadingSpace(s);
    LeadingSpaceMeaning(s);
    if i == |s| {
      assert s[|s|..] == "";
      assert Strip(s) == s[i..i];
    } else {
      var t := s[i..];
      var k := TrailingSpace(t);
      TrailingSpaceMeaning(t);
      assert k < |t| by { assert !IsSpace(t[0]); }
      var j := |s| - k;
      assert s[j..] == t[|t| - k..];
      assert s[i..j] == t[..|t| - k];
      assert Strip(s) == s[i..j];
      assert forall c :: c in s[i..j] ==> c in s;
    }
  }

  lemma StripAllSpace(s: string)
    requires AllSpace(s)
    ensures Strip(s) == ""
  {
    LeadingSpaceAll(s);
  }

  lemma {:induction false} LeadingSpaceAll(s: string)
    requires AllSpace(s)
    ensures LeadingSpace(s) == |s|
    decreases |s|
  {
    if |s| > 0 {
      assert AllSpace(s[1..]) by { assert forall i :: 0 <= i < |s[1..]| ==> s[1..][i] == s[i + 1]; }
      LeadingSpaceAll(s[1..]);
    }
  }

  /** A string with nothing to strip at either end is its own strip; in
      particular `Strip` is idempotent. */
  lemma StripNoop(s: string)
    requires s == "" || (!IsSpace(s[0]) && !IsSpace(s[|s| - 1]))
    ensures Strip(s) == s
  {
    if s != "" {
      assert LeadingSpace(s) == 0;
      assert s[0..] == s;
      assert TrailingSpace(s) == 0;
    }
  }

  lemma StripIdempotent(s: string)
    ensures Strip(Strip(s)) == Strip(s)
  {
    StripMeaning(s);
    StripNoop(Strip(s));
  }

  /** Python's `s.startswith(p)`. */
  predicate StartsWith(s: string, p: string)
  {
    |p| <= |s| && s[..|p|] == p
  }

  /** Python's `sub in s`. */
  predicate HasInfix(s: string, sub: string)
    decreases |s|
  {
    |sub| <= |s| && (s[..|sub|] == sub || (|s| > 0 && HasInfix(s[1..], sub)))
  }

  /** `sub in s` needs every character of `sub` to occur in `s`. */
  lemma {:induction false} InfixNeedsChar(s: string, sub: string, c: char)
    requires c in sub && c !in s
    ensures !HasInfix(s, sub)
    decreases |s|
  {
    if |sub| <= |s| {
      assert forall d :: d in s[..|sub|] ==> d in s;
      if |s| > 0 {
        assert forall d :: d in s[1..] ==> d in s;
        InfixNeedsChar(s[1..], sub, c);
      }
    }
  }

  /** Python's `s.isdigit()`, restricted to the ASCII digits. */
  predicate IsDigits(s: string)
  {
    |s| > 0 && forall i :: 0 <= i < |s| ==> '0' <= s[i] <= '9'
  }

  /** Python's `sep.join(parts)`. */
  function Join(parts: seq<string>, sep: string): string
    decreases |parts|
  {
    if |parts| == 0 then ""
    else if |parts| == 1 then parts[0]
    else parts[0] + sep + Join(parts[1..], sep)
  }

  /** Python's `s.split('\n')`: the pieces between newlines, never an empty
      list, and joining them back with `'\n'` gives `s` again. */
  function SplitLines(s: string): (pieces: seq<string>)
    ensures |pieces| >= 1
    ensures forall k :: 0 <= k < |pieces| ==> '\n' !in pieces[k]
    ensures forall k, c :: 0 <= k < |pieces| && c in pieces[k] ==> c in s
    decreases |s|
  {
    if s == "" then [""]
    else
      var rest := SplitLines(s[1..]);
      assert forall c :: c in s[1..] ==> c in s;
      if s[0] == '\n' then
        assert forall k :: 1 <= k < |rest| + 1 ==> ([""] + rest)[k] == rest[k - 1];
        [""] + rest
      else [[s[0]] + rest[0]] + rest[1..]
  }

  lemma {:induction false} SplitJoinRoundTrip(s: string)
    ensures Join(SplitLines(s), "\n") == s
    decreases |s|
  {
    if s != "" {
      var rest := SplitLines(s[1..]);
      SplitJoinRoundTrip(s[1..]);
      if s[0] == '\n' {
        assert SplitLines(s) == [""] + rest;
        assert ([""] + rest)[1..] == rest;
      } else {
        var pieces := [[s[0]] + rest[0]] + rest[1..];
        assert SplitLines(s) == pieces;
        if |rest| == 1 {
          assert Join(pieces, "\n") == [s[0]] + rest[0];
        } else {
          assert pieces[1..] == rest[1..];
          assert Join(pieces, "\n") == [s[0]] + rest[0] + "\n" + Join(rest[1..], "\n");
        }
      }
    }
  }

  /** Splitting at a newline splits the list of lines there too. */
  lemma {:induction false} SplitConcat(x: string, y: string)
    ensures SplitLines(x + "\n" + y) == SplitLines(x) + SplitLines(y)
    decreases |x|
  {
    var s := x + "\n" + y;
    if x == "" {
      assert s[0] == '\n' && s[1..] == y;
      assert SplitLines(s) == [""] + SplitLines(y);
    } else {
      assert s[0] == x[0] && s[1..] == x[1..] + "\n" + y;
      SplitConcat(x[1..], y);
      var rest := SplitLines(s[1..]);
      var px := SplitLines(x[1..]);
      if x[0] == '\n' {
        assert SplitLines(s) == [""] + rest;
        assert SplitLines(x) == [""] + px;
      } else {
        assert SplitLines(s) == [[x[0]] + rest[0]] + rest[1..];
        assert SplitLines(x) == [[x[0]] + px[0]] + px[1..];
        assert rest[0] == px[0];
        assert rest[1..] == px[1..] + SplitLines(y);
      }
    }
  }

  /** A character of a joined string comes from a part or from the separator. */
  lemma {:induction false} JoinChars(parts: seq<string>, sep: string, c: char)
    requires c in Join(parts, sep)
    ensures c in sep || exists k :: 0 <= k < |parts| && c in parts[k]
    decreases |parts|
  {
    if |parts| > 1 {
      var tail := Join(parts[1..], sep);
      if c !in parts[0] && c !in sep {
        assert c in tail;
        JoinChars(parts[1..], sep, c);
        var k :| 0 <= k < |parts[1..]| && c in parts[1..][k];
        assert c in parts[k + 1];
      }
    }
  }

  /** Joining two non-empty lists puts one separator between their joins. */
  lemma {:induction false} JoinConcat(a: seq<string>, b: seq<string>, sep: string)
    requires |a| > 0 && |b| > 0
    ensures Join(a + b, sep) == Join(a, sep) + sep + Join(b, sep)
    decreases |a|
  {
    if |a| == 1 {
      assert (a + b)[1..] == b;
    } else {
      assert (a + b)[1..] == a[1..] + b;
      JoinConcat(a[1..], b, sep);
    }
  }

  /** Joining parts that are all non-empty gives `""` only for no parts. */
  lemma {:induction false} JoinEmpty(parts: seq<string>, sep: string)
    requires forall k :: 0 <= k < |parts| ==> parts[k] != ""
    ensures Join(parts, sep) == "" <==> parts == []
  {
    if |parts| > 0 {
      assert |Join(parts, sep)| >= |parts[0]| by {
        if |parts| > 1 {
          assert Join(parts, sep) == parts[0] + (sep + Join(parts[1..], sep));
        }
      }
    }
  }
}
