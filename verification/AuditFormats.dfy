/** What the audit log relies on can be had: a format with all the laws. */
module AuditFormats {
  import opened Wrappers
  import opened AuditLogs

  // ---------- Texts behind each other ----------

  /** A text, each character announced and the end marked. */
  function Quoted(s: string): (q: string)
    ensures q != ""
  {
    if s == "" then "." else ['c', s[0]] + Quoted(s[1..])
  }

  /** The text at the front and what follows its end mark. */
  function Unquoted(q: string): Option<(string, string)> {
    if q == "" then None
    else if q[0] == '.' then Some(("", q[1..]))
    else if |q| == 1 then None
    else
      match Unquoted(q[2..])
      case None => None
      case Some((s, rest)) => Some(([q[1]] + s, rest))
  }

  lemma {:induction false} UnquotedQuoted(s: string, rest: string)
    ensures Unquoted(Quoted(s) + rest) == Some((s, rest))
  {
    var q := Quoted(s) + rest;
    if s == "" {
      assert q[1..] == rest;
    } else {
      UnquotedQuoted(s[1..], rest);
      assert q[2..] == Quoted(s[1..]) + rest;
      assert s == [s[0]] + s[1..];
    }
  }

  /** Several texts. */
  function Packed(fields: seq<string>): string {
    if fields == [] then "" else Quoted(fields[0]) + Packed(fields[1..])
  }

  function Unpacked(q: string, n: nat): Option<seq<string>>
    decreases n
  {
    if n == 0 then Some([])
    else
      match Unquoted(q)
      case None => None
      case Some((s, rest)) =>
        match Unpacked(rest, n - 1)
        case None => None
        case Some(others) => Some([s] + others)
  }

  lemma {:induction false} UnpackedPacked(fields: seq<string>)
    ensures Unpacked(Packed(fields), |fields|) == Some(fields)
  {
    if fields != [] {
      UnquotedQuoted(fields[0], Packed(fields[1..]));
      UnpackedPacked(fields[1..]);
      assert fields == [fields[0]] + fields[1..];
    }
  }

  // ---------- Numbers ----------

  function Strokes(n: nat): (s: string)
    ensures |s| == n
  {
    seq(n, _ => '|')
  }

  function Numeral(n: int): string {
    if n < 0 then "-" + Strokes(-n) else "+" + Strokes(n)
  }

  function ValueOf(s: string): int {
    if s == "" then 0 else if s[0] == '-' then 1 - |s| else |s| - 1
  }

  lemma NumeralHasValue(n: int)
    ensures ValueOf(Numeral(n)) == n
  {
  }

  // ---------- Entries ----------

  function FieldsOf(e: AuditEntry): seq<string> {
    [Numeral(e.number), Numeral(e.timestamp), e.runId, e.promptHash, e.outputHash, e.tenantId, e.prevHash, e.entryHash]
  }

  function Render(e: AuditEntry): string {
    Packed(FieldsOf(e))
  }

  function Parse(line: string): Option<AuditEntry> {
    match Unpacked(line, 8)
    case None => None
    case Some(fs) =>
      if |fs| != 8 then None
      else Some(AuditEntry(ValueOf(fs[0]), ValueOf(fs[1]), fs[2], fs[3], fs[4], fs[5], fs[6], fs[7]))
  }

  lemma ParseRendered(e: AuditEntry)
    ensures Render(e) != "" && Parse(Render(e)) == Some(e)
  {
    UnpackedPacked(FieldsOf(e));
    NumeralHasValue(e.number);
    NumeralHasValue(e.timestamp);
  }

  /** The fields of an entry without its hash, as a text. */
  function Digest(b: Body): string {
    Render(AuditEntry(b.number, b.timestamp, b.runId, b.promptHash, b.outputHash, b.tenantId, b.prevHash, ""))
  }

  lemma DigestIsInjective(a: Body, b: Body)
    requires Digest(a) == Digest(b)
    ensures a == b
  {
    ParseRendered(AuditEntry(a.number, a.timestamp, a.runId, a.promptHash, a.outputHash, a.tenantId, a.prevHash, ""));
    ParseRendered(AuditEntry(b.number, b.timestamp, b.runId, b.promptHash, b.outputHash, b.tenantId, b.prevHash, ""));
  }

  function Plain(): Format {
    Format(s => s, Digest, Render, Parse, s => s)
  }

  /** A lawful format exists, so the laws of the audit log are about something. */
  lemma LawfulFormatExists()
    ensures Plain().Lawful()
  {
    forall a, b | Plain().bodyHash(a) == Plain().bodyHash(b)
      ensures a == b
    {
      DigestIsInjective(a, b);
    }
    forall e
      ensures Plain().strip(Plain().render(e)) != "" && Plain().parse(Plain().strip(Plain().render(e))) == Some(e)
    {
      ParseRendered(e);
    }
  }
}
