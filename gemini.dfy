/** The input preparation of `gemini_ozet_yap` (app.py:350-359): the missing-key
    check and the truncation of long transcripts. Building the request, sending
    it and reading the reply are one abstract service. */
module Gemini {
  import opened Wrappers

  /** The fixed reply when no API key is configured (app.py:355). */
  const MissingKeyMessage: string :=
    "⚠️ Gemini API key bulunamadı! Railway'de environment variable olarak ekleyin."

  /** Longest transcript sent as it is (app.py:358). */
  const MaxInput: nat := 15000

  /** `not GEMINI_API_KEY`: the variable is unset or set to the empty string. */
  predicate KeyMissing(key: Option<string>)
  {
    key.None? || key.value == ""
  }

  /** app.py:358-359: a transcript over `MaxInput` characters keeps its first
      `MaxInput` characters and gains `"..."`; a shorter one is unchanged. */
  function Truncate(t: string): (r: string)
    ensures |r| <= MaxInput + 3
    ensures |t| <= MaxInput ==> r == t
    ensures |t| > MaxInput ==> |r| == MaxInput + 3 && r == t[..MaxInput] + "..."
  {
    if |t| > MaxInput then t[..MaxInput] + "..." else t
  }

  /** Whatever the input, what is sent starts with the input's first
      `MaxInput` characters (all of it when shorter). */
  lemma TruncateKeepsPrefix(t: string)
    ensures var n := if |t| <= MaxInput then |t| else MaxInput;
      n <= |Truncate(t)| && Truncate(t)[..n] == t[..n]
  {
    if |t| > MaxInput {
      var r := Truncate(t);
      assert r[..MaxInput] == t[..MaxInput];
    }
  }

  /** Truncating twice changes nothing more: the marked result is longer than
      `MaxInput`, so it is cut again at the same place and marked again. */
  lemma {:induction false} TruncateIdempotent(t: string)
    ensures Truncate(Truncate(t)) == Truncate(t)
  {
    if |t| > MaxInput {
      var r := Truncate(t);
      assert r[..MaxInput] == t[..MaxInput];
      assert Truncate(r) == r[..MaxInput] + "...";
    }
  }

  /** The transcripts truncation leaves alone: the short ones, and the long
      ones that already look truncated. */
  lemma TruncateFixedPoints(t: string)
    ensures Truncate(t) == t <==> |t| <= MaxInput || (|t| == MaxInput + 3 && t[MaxInput..] == "...")
  {
    if |t| > MaxInput && Truncate(t) == t {
      assert t[MaxInput..] == Truncate(t)[MaxInput..];
    }
    if |t| == MaxInput + 3 && t[MaxInput..] == "..." {
      assert t == t[..MaxInput] + t[MaxInput..];
    }
  }

  /** The text handed to the request when there is a key, `None` when the key
      check returns early and no request is built. */
  function RequestInput(key: Option<string>, transcript: string): (input: Option<string>)
    ensures input.None? <==> KeyMissing(key)
    ensures input.Some? ==> input.value == Truncate(transcript) && |input.value| <= MaxInput + 3
  {
    if KeyMissing(key) then None else Some(Truncate(transcript))
  }

  /** `gemini_ozet_yap(transcript)`: the warning when the key is missing,
      otherwise what `service` (request, reply and its error texts) makes of the
      key and the prepared input. */
  function Summary(key: Option<string>, transcript: string, service: (string, string) -> string): (s: string)
    ensures KeyMissing(key) ==> s == MissingKeyMessage
    ensures !KeyMissing(key) ==> s == service(key.value, Truncate(transcript))
  {
    match RequestInput(key, transcript)
    case None => MissingKeyMessage
    case Some(input) => service(key.value, input)
  }

  /** With no key the result is the warning, whatever the service would have
      answered: the service is never consulted. */
  lemma MissingKeyShortCircuits(key: Option<string>, transcript: string,
                                s1: (string, string) -> string, s2: (string, string) -> string)
    requires KeyMissing(key)
    ensures Summary(key, transcript, s1) == Summary(key, transcript, s2) == MissingKeyMessage
  {
  }

  /** Two transcripts that are both too long and agree on their first
      `MaxInput` characters produce the same request input: those characters
      followed by `"..."`. */
  lemma LongTranscriptsShareInput(key: Option<string>, t1: string, t2: string)
    requires !KeyMissing(key)
    requires |t1| > MaxInput && |t2| > MaxInput && t1[..MaxInput] == t2[..MaxInput]
    ensures RequestInput(key, t1) == RequestInput(key, t2) == Some(t1[..MaxInput] + "...")
  {
  }
}
