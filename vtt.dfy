/** `parse_vtt` (app.py:308-326): turns a WebVTT subtitle document into one
    line of plain text. Each line is stripped; header, comment, cue-timing,
    cue-number and tag-led lines are dropped; `<...>` tags are removed from
    what is left; the surviving lines are joined with single spaces. */
module Vtt {
  import opened Text
  import opened Wrappers

  /** `s[i..j+1]` is what the pattern `<[^>]+>` matches: a `<`, one or more
      characters other than `>`, then a `>`. */
  predicate TagSpan(s: string, i: int, j: int)
    requires 0 <= i < j < |s|
  {
    s[i] == '<' && s[j] == '>' && i + 1 < j && forall k :: i < k < j ==> s[k] != '>'
  }

  /** No substring of `s` matches `<[^>]+>`. */
  predicate NoTags(s: string)
  {
    forall i, j :: 0 <= i < j < |s| ==> !TagSpan(s, i, j)
  }

  /** Position of the first `c` in `s` at or after `from`. */
  function IndexOf(s: string, c: char, from: nat): (k: nat)
    requires from <= |s| && c in s[from..]
    ensures from <= k < |s| && s[k] == c
    ensures forall m :: from <= m < k ==> s[m] != c
    decreases |s| - from
  {
    if s[from] == c then from
    else
      assert c in s[from + 1..] by {
        var m :| 0 <= m < |s[from..]| && s[from..][m] == c;
        assert m > 0 && s[from + 1..][m - 1] == c;
      }
      IndexOf(s, c, from + 1)
  }

  /** `re.sub(r'<[^>]+>', '', s)`: scanning left to right, a `<` that a `>`
      follows later but not immediately starts a match, which ends at that
      first `>` and is deleted; every other character is kept. The result has
      no tag left in it and only characters of `s`; a first character that is
      not `<` always survives. */
  function StripTags(s: string): (r: string)
    ensures |r| <= |s|
    ensures forall c :: c in r ==> c in s
    ensures NoTags(r)
    ensures |s| > 0 && s[0] != '<' ==> |r| > 0 && r[0] == s[0]
    decreases |s|
  {
    if |s| == 0 then ""
    else if s[0] == '<' && |s| > 1 && s[1] != '>' && '>' in s[2..] then
      var j := IndexOf(s, '>', 2);
      var r := StripTags(s[j + 1..]);
      assert forall c :: c in s[j + 1..] ==> c in s;
      r
    else
      var rest := StripTags(s[1..]);
      var r := [s[0]] + rest;
      assert forall c :: c in s[1..] ==> c in s;
      assert forall k :: 1 <= k < |r| ==> r[k] == rest[k - 1];
      assert NoTags(r) by {
        forall i, j | 0 <= i < j < |r|
          ensures !TagSpan(r, i, j)
        {
          if i > 0 {
            TagSpanShift(s[0], rest, i, j);
          } else if r[0] == '<' {
            assert |s| > 1;
            if s[1] == '>' {
              assert rest[0] == '>' && r[1] == '>';
            } else {
              assert '>' !in s[1..];
              assert r[j] == rest[j - 1];
              assert r[j] in rest;
            }
          }
        }
      }
      r
  }

  /** A tag span after the first character is a tag span of the rest. */
  lemma TagSpanShift(c: char, rest: string, i: int, j: int)
    requires 0 < i < j < |rest| + 1
    ensures TagSpan([c] + rest, i, j) <==> TagSpan(rest, i - 1, j - 1)
  {
    var r := [c] + rest;
    if TagSpan(r, i, j) {
      forall k | i - 1 < k < j - 1 ensures rest[k] != '>' { assert rest[k] == r[k + 1]; }
    }
    if TagSpan(rest, i - 1, j - 1) {
      forall k | i < k < j ensures r[k] != '>' { assert r[k] == rest[k - 1]; }
    }
  }

  /** Text without tags is left unchanged by the tag pass. */
  lemma {:induction false} StripTagsNoop(s: string)
    requires NoTags(s)
    ensures StripTags(s) == s
    decreases |s|
  {
    if |s| > 0 {
      if s[0] == '<' && |s| > 1 && s[1] != '>' && '>' in s[2..] {
        var j := IndexOf(s, '>', 2);
        assert TagSpan(s, 0, j);
        assert false;
      }
      assert NoTags(s[1..]) by {
        forall i, j | 0 <= i < j < |s[1..]|
          ensures !TagSpan(s[1..], i, j)
        {
          assert !TagSpan(s, i + 1, j + 1);
        }
      }
      StripTagsNoop(s[1..]);
    }
  }

  /** The tag pass is idempotent (unlike `parse_vtt` as a whole). */
  lemma StripTagsIdempotent(s: string)
    ensures StripTags(StripTags(s)) == StripTags(s)
  {
    StripTagsNoop(StripTags(s));
  }

  /** The six tests of app.py:315-320 on a stripped line: keep it when it is
      non-empty and is not a header, a cue timing, a comment, a cue number or
      a line starting with a tag. */
  predicate Passes(line: string)
  {
    line != ""
    && !StartsWith(line, "WEBVTT")
    && !HasInfix(line, "-->")
    && !StartsWith(line, "NOTE")
    && !IsDigits(line)
    && !StartsWith(line, "<")
  }

  /** What the loop of app.py:313-324 appends for the raw line `raw`, if anything. */
  function Segment(raw: string): Option<string>
  {
    var line := Strip(raw);
    var cleaned := StripTags(line);
    if Passes(line) && cleaned != "" then Some(cleaned) else None
  }

  /** `transcript_lines` after the loop has seen `lines`. */
  function Kept(lines: seq<string>): seq<string>
    decreases |lines|
  {
    if lines == [] then []
    else
      var last := lines[|lines| - 1];
      Kept(lines[..|lines| - 1]) + (match Segment(last) case Some(t) => [t] case None => [])
  }

  /** One more line appends that line's segment, if any. */
  lemma KeptStep(lines: seq<string>, n: nat)
    requires n < |lines|
    ensures Kept(lines[..n + 1]) == Kept(lines[..n]) + (match Segment(lines[n]) case Some(t) => [t] case None => [])
  {
    assert lines[..n + 1][..n] == lines[..n];
  }

  /** The value `parse_vtt(content)` returns. */
  function Transcript(content: string): string
  {
    Join(Kept(SplitLines(content)), " ")
  }

  /** `parse_vtt`, with its loop over the lines. */
  method ParseVtt(content: string) returns (r: string)
    ensures r == Transcript(content)
  {
    var lines := SplitLines(content);
    var transcriptLines: seq<string> := [];
    var i := 0;
    while i < |lines|
      invariant 0 <= i <= |lines|
      invariant transcriptLines == Kept(lines[..i])
    {
      ghost var segment := Segment(lines[i]);
      KeptStep(lines, i);
      var line := Strip(lines[i]);
      if Passes(line) {
        line := StripTags(line);
        if line != "" {
          assert segment == Some(line);
          transcriptLines := transcriptLines + [line];
        } else {
          assert segment == None;
        }
      } else {
        assert segment == None;
      }
      i := i + 1;
    }
    assert lines[..i] == lines;
    r := Join(transcriptLines, " ");
  }

  /** The `if line:` test of app.py:323 never fails: a line that passes the six
      tests starts with a character that is neither whitespace nor `<`, and the
      tag pass keeps that character. So a line is kept exactly when it passes,
      and what is kept is non-empty, tag-free and made of the line's characters. */
  lemma SegmentShape(raw: string)
    ensures Segment(raw).Some? <==> Passes(Strip(raw))
    ensures Segment(raw).Some? ==>
      var t := Segment(raw).value;
      t != "" && t[0] == Strip(raw)[0] && !IsSpace(t[0]) && t[0] != '<' && NoTags(t)
      && forall c :: c in t ==> c in raw
  {
    var line := Strip(raw);
    StripMeaning(raw);
    if Passes(line) {
      assert line[0] != '<' by { assert !StartsWith(line, "<"); assert line[..1] == [line[0]]; }
    }
  }

  /** Every segment in `transcript_lines` is a non-empty, tag-free piece of
      text starting with neither whitespace nor `<`; lines without a newline
      give segments without one. */
  lemma {:induction false} KeptShape(lines: seq<string>)
    ensures |Kept(lines)| <= |lines|
    ensures forall k :: 0 <= k < |Kept(lines)| ==>
      var t := Kept(lines)[k];
      t != "" && !IsSpace(t[0]) && t[0] != '<' && NoTags(t)
    ensures (forall k :: 0 <= k < |lines| ==> '\n' !in lines[k]) ==>
      forall k :: 0 <= k < |Kept(lines)| ==> '\n' !in Kept(lines)[k]
    decreases |lines|
  {
    if lines != [] {
      var init := lines[..|lines| - 1];
      var last := lines[|lines| - 1];
      KeptShape(init);
      SegmentShape(last);
      assert forall k :: 0 <= k < |init| ==> init[k] == lines[k];
    }
  }

  /** Lines are treated one by one and their order is kept: the segments of
      two runs of lines are the segments of each, one after the other. */
  lemma {:induction false} KeptConcat(a: seq<string>, b: seq<string>)
    ensures Kept(a + b) == Kept(a) + Kept(b)
    decreases |b|
  {
    if b == [] {
      assert a + b == a;
    } else {
      var init := b[..|b| - 1];
      assert (a + b)[..|a + b| - 1] == a + init;
      KeptConcat(a, init);
    }
  }

  /** On a single line, `parse_vtt` gives that line's segment or nothing. */
  lemma SingleLine(line: string)
    requires '\n' !in line
    ensures Transcript(line) == match Segment(line) case Some(t) => t case None => ""
  {
    SplitOfLine(line);
    var lines := [line];
    assert lines[..0] == [] && lines[0] == line;
    assert Kept(lines[..0]) == [];
    match Segment(line)
    case Some(t) =>
      assert Kept(lines) == [t];
    case None =>
      assert Kept(lines) == [];
  }

  lemma {:induction false} SplitOfLine(line: string)
    requires '\n' !in line
    ensures SplitLines(line) == [line]
    decreases |line|
  {
    if line != "" {
      assert '\n' !in line[1..] by {
        forall k | 0 <= k < |line[1..]| ensures line[1..][k] != '\n' { assert line[1..][k] == line[k + 1]; }
      }
      SplitOfLine(line[1..]);
      assert line == [line[0]] + line[1..];
    }
  }

  /** Joining two texts with one space between, leaving out an empty one. */
  function Combine(a: string, b: string): string
  {
    if a == "" then b else if b == "" then a else a + " " + b
  }

  /** `parse_vtt` returns `""` exactly when no line is kept. */
  lemma TranscriptEmpty(content: string)
    ensures Transcript(content) == "" <==> Kept(SplitLines(content)) == []
  {
    KeptShape(SplitLines(content));
    JoinEmpty(Kept(SplitLines(content)), " ");
  }

  /** Parsing two documents glued at a newline is joining the two parses
      with one space: `parse_vtt` works line by line and in order. */
  lemma TranscriptConcat(x: string, y: string)
    ensures Transcript(x + "\n" + y) == Combine(Transcript(x), Transcript(y))
  {
    var a := Kept(SplitLines(x));
    var b := Kept(SplitLines(y));
    SplitConcat(x, y);
    KeptConcat(SplitLines(x), SplitLines(y));
    TranscriptEmpty(x);
    TranscriptEmpty(y);
    if a == [] {
      assert a + b == b;
    } else if b == [] {
      assert a + b == a;
    } else {
      JoinConcat(a, b, " ");
    }
  }

  /** `parse_vtt` never returns a newline. */
  lemma TranscriptHasNoNewline(content: string)
    ensures '\n' !in Transcript(content)
  {
    var lines := SplitLines(content);
    KeptShape(lines);
    if '\n' in Transcript(content) {
      JoinChars(Kept(lines), " ", '\n');
    }
  }

  /** Empty or whitespace-only input parses to the empty string. */
  lemma {:induction false} BlankTranscript(content: string)
    requires AllSpace(content)
    ensures Transcript(content) == ""
  {
    var lines := SplitLines(content);
    forall k | 0 <= k < |lines| ensures Segment(lines[k]) == None {
      assert AllSpace(lines[k]) by {
        forall m | 0 <= m < |lines[k]| ensures IsSpace(lines[k][m]) {
          assert lines[k][m] in lines[k];
          assert lines[k][m] in content;
          var n :| 0 <= n < |content| && content[n] == lines[k][m];
        }
      }
      StripAllSpace(lines[k]);
    }
    NoSegments(lines);
  }

  lemma {:induction false} NoSegments(lines: seq<string>)
    requires forall k :: 0 <= k < |lines| ==> Segment(lines[k]) == None
    ensures Kept(lines) == []
    decreases |lines|
  {
    if lines != [] {
      var init := lines[..|lines| - 1];
      assert forall k :: 0 <= k < |init| ==> init[k] == lines[k];
      NoSegments(init);
    }
  }

  /** Text without `<` passes through the tag pass unchanged, whatever follows. */
  lemma {:induction false} StripTagsPlain(a: string, t: string)
    requires '<' !in a
    ensures StripTags(a + t) == a + StripTags(t)
    decreases |a|
  {
    if a != "" {
      var s := a + t;
      assert s[0] == a[0] && s[1..] == a[1..] + t;
      assert a[0] in a;
      assert '<' !in a[1..] by { assert forall c :: c in a[1..] ==> c in a; }
      StripTagsPlain(a[1..], t);
      assert StripTags(s) == [a[0]] + (a[1..] + StripTags(t));
      assert [a[0]] + (a[1..] + StripTags(t)) == ([a[0]] + a[1..]) + StripTags(t);
      assert a == [a[0]] + a[1..];
    } else {
      assert a + t == t;
    }
  }

  /** A `<`, some text without `>`, and a `>` at the front are deleted. */
  lemma StripTagsDeletesTag(m: string, b: string)
    requires m != "" && '>' !in m && m[0] != '>'
    ensures StripTags("<" + m + ">" + b) == StripTags(b)
  {
    var s := "<" + m + ">" + b;
    var e := |m| + 1;
    assert s[e] == '>';
    assert s[2..][e - 2] == '>';
    assert forall k :: 2 <= k < e ==> s[k] == m[k - 1];
    assert IndexOf(s, '>', 2) == e;
    assert s[e + 1..] == b;
  }

  /** `parse_vtt` is not idempotent: a tag at the end of a line leaves the
      space before it, which a second pass strips. */
  lemma TrailingTagNotIdempotent(doc: string)
    requires doc == "a <b>"
    ensures Transcript(doc) == "a "
    ensures Transcript(Transcript(doc)) == "a"
  {
    TrailingTagSegment(doc);
    SingleLine(doc);
    var once := Transcript(doc);
    TrailingSpaceSegment(once);
    SingleLine(once);
  }

  lemma TrailingTagSegment(s: string)
    requires s == "a <b>"
    ensures Segment(s) == Some("a ")
  {
    TrailingTagPasses(s);
    TrailingTagStrip(s);
  }

  lemma TrailingTagPasses(s: string)
    requires s == "a <b>"
    ensures Strip(s) == s && Passes(s)
  {
    StripNoop(s);
    InfixNeedsChar(s, "-->", '-');
    assert s[0] == 'a' && s[..1] == "a" && s[..4] == "a <b";
  }

  lemma TrailingTagStrip(s: string)
    requires s == "a <b>"
    ensures StripTags(s) == "a "
  {
    assert s == "a " + "<" + "b" + ">" + "";
    TagBetween("a ", "b", "");
    assert "a " + "" == "a ";
  }

  /** One tag between two runs of text without `<` is all the tag pass removes. */
  lemma TagBetween(a: string, m: string, b: string)
    requires '<' !in a && '<' !in b
    requires m != "" && '>' !in m && m[0] != '>'
    ensures StripTags(a + "<" + m + ">" + b) == a + b
  {
    var tag := "<" + m + ">" + b;
    assert a + "<" + m + ">" + b == a + tag;
    StripTagsPlain(a, tag);
    assert StripTags(a + tag) == a + StripTags(tag);
    StripTagsDeletesTag(m, b);
    assert StripTags(tag) == StripTags(b);
    StripTagsPlain(b, "");
    assert b + "" == b;
    assert StripTags(b) == b;
  }

  lemma TrailingSpaceSegment(t: string)
    requires t == "a "
    ensures Segment(t) == Some("a")
  {
    assert LeadingSpace(t) == 0 && t[0..] == t;
    assert IsSpace(t[1]) && t[..1] == "a";
    assert TrailingSpace("a") == 0 && TrailingSpace(t) == 1;
    assert Strip(t) == "a";
    assert StripTags("a") == "a";
    InfixNeedsChar("a", "-->", '-');
    assert "a"[0] == 'a' && "a"[..1] == "a";
  }

  /** `parse_vtt` is not idempotent: removing a tag can assemble a header
      word, and a second pass then drops the whole line. */
  lemma HeaderTagNotIdempotent(doc: string)
    requires doc == "WEB<i>VTT x"
    ensures Transcript(doc) == "WEBVTT x"
    ensures Transcript(Transcript(doc)) == ""
  {
    HeaderTagOnce(doc);
    HeaderLineDropped(Transcript(doc));
    SingleLine(Transcript(doc));
  }

  lemma HeaderTagOnce(doc: string)
    requires doc == "WEB<i>VTT x"
    ensures Transcript(doc) == "WEBVTT x"
  {
    HeaderTagSegment(doc);
    assert '\n' !in doc by { assert forall k :: 0 <= k < |doc| ==> doc[k] != '\n'; }
    SingleLine(doc);
  }

  lemma HeaderLineDropped(t: string)
    requires t == "WEBVTT x"
    ensures Segment(t) == None
  {
    StripNoop(t);
    assert t[..6] == "WEBVTT";
  }

  lemma HeaderTagSegment(s: string)
    requires s == "WEB<i>VTT x"
    ensures Segment(s) == Some("WEBVTT x")
  {
    StripNoop(s);
    InfixNeedsChar(s, "-->", '-');
    assert s[..6] == "WEB<i>" && s[..4] == "WEB<" && s[..1] == "W" && s[0] == 'W';
    assert Passes(s);
    TagInsideHeader(s);
  }

  lemma TagInsideHeader(s: string)
    requires s == "WEB<i>VTT x"
    ensures StripTags(s) == "WEBVTT x"
  {
    var a, m, b := s[..3], s[4..5], s[6..];
    assert s == a + "<" + m + ">" + b;
    assert '<' !in a && '<' !in b && m == "i";
    TagBetween(a, m, b);
    assert a + b == "WEBVTT x";
  }

  /** A cue text line with nothing for `parse_vtt` to remove. */
  predicate PlainLine(t: string)
  {
    Passes(t) && '\n' !in t && '<' !in t && !IsSpace(t[0]) && !IsSpace(t[|t| - 1])
  }

  lemma PlainLineKept(t: string)
    requires PlainLine(t)
    ensures Transcript(t) == t
  {
    StripNoop(t);
    StripTagsPlain(t, "");
    assert t + "" == t;
    SingleLine(t);
  }

  lemma HeaderLineGone(h: string)
    requires h == "WEBVTT"
    ensures Transcript(h) == ""
  {
    StripNoop(h);
    assert h[..6] == "WEBVTT";
    SingleLine(h);
  }

  lemma BlankLineGone(h: string)
    requires h == ""
    ensures Transcript(h) == ""
  {
    BlankTranscript(h);
  }

  lemma TimingLineGone(h: string)
    requires h == "00:00.000 --> 00:02.000"
    ensures Transcript(h) == ""
  {
    StripNoop(h);
    assert h[10..][..3] == "-->";
    assert HasInfix(h[10..], "-->");
    InfixFrom(h, "-->", 10);
    assert '\n' !in h by { assert forall k :: 0 <= k < |h| ==> h[k] != '\n'; }
    SingleLine(h);
  }

  /** An infix of a suffix is an infix. */
  lemma {:induction false} InfixFrom(s: string, sub: string, n: nat)
    requires n <= |s| && HasInfix(s[n..], sub)
    ensures HasInfix(s, sub)
    decreases n
  {
    if n > 0 {
      assert s[1..][n - 1..] == s[n..];
      InfixFrom(s[1..], sub, n - 1);
    }
  }

  /** A minimal document (header, blank line, one cue timing, two text lines)
      parses to the two text lines joined by one space. */
  lemma MinimalDocument(header: string, blank: string, timing: string, a: string, b: string)
    requires header == "WEBVTT" && blank == "" && timing == "00:00.000 --> 00:02.000"
    requires PlainLine(a) && PlainLine(b)
    ensures Transcript(header + "\n" + blank + "\n" + timing + "\n" + a + "\n" + b) == a + " " + b
  {
    HeaderLineGone(header);
    BlankLineGone(blank);
    TimingLineGone(timing);
    PlainLineKept(a);
    PlainLineKept(b);
    TranscriptConcat(header, blank);
    TranscriptConcat(header + "\n" + blank, timing);
    TranscriptConcat(header + "\n" + blank + "\n" + timing, a);
    TranscriptConcat(header + "\n" + blank + "\n" + timing + "\n" + a, b);
  }
}
