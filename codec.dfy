/**
 * The record codec: a JSON-shaped text form of a two-field record,
 * `{"Name":<string>,"Body":<string>}`, where a string is written between
 * double quotes with `"` and `\` escaped by a backslash. Decoding is partial:
 * any text that is not exactly such a record is refused. The registry needs
 * nothing from the codec but that decoding undoes encoding.
 */
module Codec {
  import opened Wrappers
  import opened Entities

  function EscapeChar(c: char): string
  {
    if c == '"' || c == '\\' then ['\\', c] else [c]
  }

  function Escape(s: string): string
    decreases |s|
  {
    if s == [] then [] else EscapeChar(s[0]) + Escape(s[1..])
  }

  /** A string literal: the escaped text between double quotes. */
  function Quote(s: string): string
  {
    "\"" + Escape(s) + "\""
  }

  /**
   * Reads the inside of a string literal whose opening quote was already
   * consumed: the unescaped text up to the closing quote, and what follows
   * that quote. A literal left open, or ending in a lone backslash, is refused.
   */
  function Unescape(s: string): (r: Option<(string, string)>)
    ensures r.Some? ==> |r.value.1| < |s|
    decreases |s|
  {
    if s == [] then None
    else if s[0] == '"' then Some(([], s[1..]))
    else if s[0] == '\\' then
      if |s| < 2 then None
      else match Unescape(s[2..])
        case None => None
        case Some((t, rest)) => Some(([s[1]] + t, rest))
    else match Unescape(s[1..])
      case None => None
      case Some((t, rest)) => Some(([s[0]] + t, rest))
  }

  /** Reads one string literal at the start of `s`, giving its text and what follows it. */
  function Unquote(s: string): Option<(string, string)>
  {
    if s != [] && s[0] == '"' then Unescape(s[1..]) else None
  }

  /** Reading back an escaped text stops at the closing quote, whatever follows. */
  lemma {:induction false} UnescapeEscape(s: string, rest: string)
    ensures Unescape(Escape(s) + "\"" + rest) == Some((s, rest))
    decreases |s|
  {
    if s == [] {
      assert Escape(s) + "\"" + rest == "\"" + rest;
    } else {
      var tail := Escape(s[1..]) + "\"" + rest;
      UnescapeEscape(s[1..], rest);
      assert Escape(s) + "\"" + rest == EscapeChar(s[0]) + tail;
      if s[0] == '"' || s[0] == '\\' {
        assert (EscapeChar(s[0]) + tail)[2..] == tail;
      } else {
        assert (EscapeChar(s[0]) + tail)[1..] == tail;
      }
      assert [s[0]] + s[1..] == s;
    }
  }

  lemma UnquoteQuote(s: string, rest: string)
    ensures Unquote(Quote(s) + rest) == Some((s, rest))
  {
    assert (Quote(s) + rest)[1..] == Escape(s) + "\"" + rest;
    UnescapeEscape(s, rest);
  }

  const NameField: string := "{\"Name\":"
  const BodyField: string := ",\"Body\":"

  function EncodeRecord(name: string, body: string): string
  {
    NameField + Quote(name) + BodyField + Quote(body) + "}"
  }

  /** Reads `s` as a whole record; every other text is a decode error. */
  function DecodeRecord(s: string): Option<(string, string)>
  {
    if |s| < |NameField| || s[..|NameField|] != NameField then None
    else match Unquote(s[|NameField|..])
      case None => None
      case Some((name, r)) =>
        if |r| < |BodyField| || r[..|BodyField|] != BodyField then None
        else match Unquote(r[|BodyField|..])
          case None => None
          case Some((body, r')) => if r' == "}" then Some((name, body)) else None
  }

  /** Cutting `a + b` after `a` gives back both parts. */
  lemma CutAfter(a: string, b: string)
    ensures (a + b)[..|a|] == a && (a + b)[|a|..] == b
  {
  }

  lemma RecordRoundTrip(name: string, body: string)
    ensures DecodeRecord(EncodeRecord(name, body)) == Some((name, body))
  {
    var s, tail := EncodeRecord(name, body), BodyField + (Quote(body) + "}");
    assert s == NameField + (Quote(name) + tail);
    CutAfter(NameField, Quote(name) + tail);
    UnquoteQuote(name, tail);
    assert Unquote(s[|NameField|..]) == Some((name, tail));
    CutAfter(BodyField, Quote(body) + "}");
    UnquoteQuote(body, "}");
    assert Unquote(tail[|BodyField|..]) == Some((body, "}"));
  }

  /** `marshal` of a job; the Go encoder's error cannot arise for these records. */
  function EncodeJob(j: Job): string
  {
    EncodeRecord(j.name, j.body)
  }

  /** `unmarshal` into a job: the decoded job, or None for a decode error. */
  function DecodeJob(s: string): Option<Job>
  {
    match DecodeRecord(s)
    case None => None
    case Some((name, body)) => Some(Job(name, body))
  }

  /** Unmarshal with the error ignored: a decode error leaves the zero-valued job. */
  function JobOrZero(s: string): Job
  {
    match DecodeJob(s)
    case None => ZeroJob
    case Some(j) => j
  }

  function EncodePayload(p: JobPayload): string
  {
    EncodeRecord(p.name, p.body)
  }

  function DecodePayload(s: string): Option<JobPayload>
  {
    match DecodeRecord(s)
    case None => None
    case Some((name, body)) => Some(JobPayload(name, body))
  }

  /** Unmarshal with the error ignored: a decode error leaves the zero-valued payload. */
  function PayloadOrZero(s: string): JobPayload
  {
    match DecodePayload(s)
    case None => ZeroPayload
    case Some(p) => p
  }

  lemma JobRoundTrip(j: Job)
    ensures DecodeJob(EncodeJob(j)) == Some(j)
    ensures JobOrZero(EncodeJob(j)) == j
  {
    RecordRoundTrip(j.name, j.body);
  }

  lemma PayloadRoundTrip(p: JobPayload)
    ensures DecodePayload(EncodePayload(p)) == Some(p)
    ensures PayloadOrZero(EncodePayload(p)) == p
  {
    RecordRoundTrip(p.name, p.body);
  }
}
