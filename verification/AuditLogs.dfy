/** The hash-chained audit log. */
module AuditLogs {
  import opened Wrappers

  /** Timestamps are machine numbers, of which there are countably many; integers stand for them. */
  datatype AuditEntry = AuditEntry(
    number: int, timestamp: int, runId: string, promptHash: string, outputHash: string, tenantId: string,
    prevHash: string, entryHash: string)

  /** The fields an entry's hash covers. */
  datatype Body = Body(
    number: int, timestamp: int, runId: string, promptHash: string, outputHash: string, tenantId: string,
    prevHash: string)

  function BodyOf(e: AuditEntry): Body {
    Body(e.number, e.timestamp, e.runId, e.promptHash, e.outputHash, e.tenantId, e.prevHash)
  }

  /** Hashing and JSON, and what is relied on: different bodies have different hashes, and a printed
      entry is one non-blank line that parses to the entry. */
  datatype Format = Format(
    textHash: string -> string,
    bodyHash: Body -> string,
    render: AuditEntry -> string,
    parse: string -> Option<AuditEntry>,
    strip: string -> string)
  {
    ghost predicate Lawful() {
      && (forall a, b :: bodyHash(a) == bodyHash(b) ==> a == b)
      && (forall e :: strip(render(e)) != "" && parse(strip(render(e))) == Some(e))
    }
  }

  // ---------- Reading a log ----------

  /** The entries of the non-blank lines; nothing if one of them does not parse. */
  function Entries(f: Format, lines: seq<string>): Option<seq<AuditEntry>> {
    if lines == [] then Some([])
    else
      match Entries(f, lines[..|lines| - 1])
      case None => None
      case Some(front) =>
        var text := f.strip(lines[|lines| - 1]);
        if text == "" then Some(front)
        else
          match f.parse(text)
          case None => None
          case Some(e) => Some(front + [e])
  }

  function LastHash(entries: seq<AuditEntry>): string {
    if entries == [] then "" else entries[|entries| - 1].entryHash
  }

  /** Entry `i` is numbered `i`, names its predecessor's hash and carries its own. */
  ghost predicate Chained(f: Format, entries: seq<AuditEntry>) {
    forall i :: 0 <= i < |entries| ==>
      && entries[i].number == i
      && entries[i].prevHash == LastHash(entries[..i])
      && entries[i].entryHash == f.bodyHash(BodyOf(entries[i]))
  }

  ghost predicate Intact(f: Format, lines: seq<string>) {
    Entries(f, lines).Some? && Chained(f, Entries(f, lines).value)
  }

  // ---------- The log ----------

  datatype Event = Event(runId: string, prompt: string, output: string, tenantId: string, now: int)

  /** The entry for an event behind `last`. */
  function NextEntry(f: Format, last: Option<AuditEntry>, event: Event): AuditEntry {
    var body := Body(if last.Some? then last.value.number + 1 else 0, event.now, event.runId,
                     f.textHash(event.prompt), f.textHash(event.output), event.tenantId,
                     if last.Some? then last.value.entryHash else "");
    AuditEntry(body.number, body.timestamp, body.runId, body.promptHash, body.outputHash, body.tenantId,
               body.prevHash, f.bodyHash(body))
  }

  /** The last non-blank line's entry, if there is such a line and it parses. */
  function LastEntry(f: Format, lines: seq<string>): Option<AuditEntry> {
    if lines == [] then None
    else
      var text := f.strip(lines[|lines| - 1]);
      if text == "" then LastEntry(f, lines[..|lines| - 1]) else f.parse(text)
  }

  class AuditLog {
    const format: Format
    var lines: seq<string>

    constructor (format: Format)
      ensures this.format == format && lines == []
    {
      this.format, lines := format, [];
    }

    method ReadLastEntry() returns (last: Option<AuditEntry>)
      ensures last == LastEntry(format, lines)
    {
      var text := "";
      for i := 0 to |lines|
        invariant if text == "" then LastEntry(format, lines[..i]) == None
                  else LastEntry(format, lines[..i]) == format.parse(text)
      {
        assert lines[..i + 1][..i] == lines[..i];
        var stripped := format.strip(lines[i]);
        if stripped != "" {
          text := stripped;
        }
      }
      assert lines[..|lines|] == lines;
      if text == "" {
        return None;
      }
      last := format.parse(text);
    }

    /** Everything written earlier stays, and one line is added. */
    method Record(event: Event) returns (entry: AuditEntry)
      modifies this
      ensures entry == NextEntry(format, LastEntry(format, old(lines)), event)
      ensures lines == old(lines) + [format.render(entry)]
    {
      var last := ReadLastEntry();
      entry := NextEntry(format, last, event);
      lines := lines + [format.render(entry)];
    }

    /** The verdict is exactly the declarative chain. */
    method Verify() returns (ok: bool)
      ensures ok <==> Intact(format, lines)
    {
      var prevHash, prevNumber := "", -1;
      for i := 0 to |lines|
        invariant Intact(format, lines[..i])
        invariant prevNumber == |Entries(format, lines[..i]).value| - 1
        invariant prevHash == LastHash(Entries(format, lines[..i]).value)
      {
        VerifyStep(format, lines, i);
        var text := format.strip(lines[i]);
        if text == "" {
          continue;
        }
        var parsed := format.parse(text);
        if parsed == None {
          return false;
        }
        var entry := parsed.value;
        if entry.number != prevNumber + 1 {
          return false;
        }
        if entry.prevHash != prevHash {
          return false;
        }
        if entry.entryHash != format.bodyHash(BodyOf(entry)) {
          return false;
        }
        prevHash, prevNumber := entry.entryHash, entry.number;
      }
      assert lines[..|lines|] == lines;
      ok := true;
    }
  }

  /** One more entry keeps a chain exactly if it fits. */
  lemma ChainStep(f: Format, entries: seq<AuditEntry>, e: AuditEntry)
    ensures Chained(f, entries + [e])
       <==> Chained(f, entries) && e.number == |entries| && e.prevHash == LastHash(entries)
            && e.entryHash == f.bodyHash(BodyOf(e))
  {
    var all := entries + [e];
    assert all[..|entries|] == entries;
    assert forall i :: 0 <= i < |entries| ==> all[..i] == entries[..i] && all[i] == entries[i];
    if Chained(f, all) {
      assert all[|entries|].number == |entries|;
      forall i | 0 <= i < |entries| ensures entries[i].number == i {
        assert all[i].number == i;
      }
    }
  }

  /** How the verdict on the lines up to `i` follows from the verdict before line `i`, and that it is
      final once it is negative. */
  lemma VerifyStep(f: Format, lines: seq<string>, i: nat)
    requires i < |lines| && Intact(f, lines[..i])
    ensures var before := Entries(f, lines[..i]).value;
            var text := f.strip(lines[i]);
            var parsed := f.parse(text);
            var fits := parsed.Some? && parsed.value.number == |before| && parsed.value.prevHash == LastHash(before)
                        && parsed.value.entryHash == f.bodyHash(BodyOf(parsed.value));
            && (text == "" ==> Intact(f, lines[..i + 1]) && Entries(f, lines[..i + 1]).value == before)
            && (text != "" && fits ==> Intact(f, lines[..i + 1]) && Entries(f, lines[..i + 1]).value == before + [parsed.value])
            && (text != "" && !fits ==> !Intact(f, lines))
  {
    assert lines[..i + 1][..i] == lines[..i];
    var before := Entries(f, lines[..i]).value;
    var text := f.strip(lines[i]);
    if text != "" && f.parse(text).Some? {
      ChainStep(f, before, f.parse(text).value);
    }
    if !Intact(f, lines[..i + 1]) && Intact(f, lines) {
      PrefixIsIntact(f, lines, i + 1);
    }
  }

  /** Blank lines do not count, wherever they stand. */
  lemma {:induction false} BlankLinesDoNotCount(f: Format, a: seq<string>, blank: string, b: seq<string>)
    requires f.strip(blank) == ""
    ensures Entries(f, a + [blank] + b) == Entries(f, a + b) && LastEntry(f, a + [blank] + b) == LastEntry(f, a + b)
  {
    if b == [] {
      assert (a + [blank] + b)[..|a|] == a && a + b == a && (a + [blank] + b)[|a|] == blank;
    } else {
      var front := b[..|b| - 1];
      BlankLinesDoNotCount(f, a, blank, front);
      assert (a + [blank] + b)[..|a| + |b|] == a + [blank] + front && (a + b)[..|a + b| - 1] == a + front;
    }
  }

  // ---------- What verification is worth ----------

  lemma {:induction false} PrefixEntries(f: Format, lines: seq<string>, k: nat)
    requires k <= |lines| && Entries(f, lines).Some?
    ensures Entries(f, lines[..k]).Some? && Entries(f, lines[..k]).value <= Entries(f, lines).value
  {
    if k < |lines| {
      PrefixEntries(f, lines[..|lines| - 1], k);
      assert lines[..|lines| - 1][..k] == lines[..k];
    } else {
      assert lines[..k] == lines;
    }
  }

  /** Every prefix of a log that verifies verifies: losing lines at the end goes unnoticed. */
  lemma PrefixIsIntact(f: Format, lines: seq<string>, k: nat)
    requires k <= |lines| && Intact(f, lines)
    ensures Intact(f, lines[..k])
  {
    PrefixEntries(f, lines, k);
    var all, front := Entries(f, lines).value, Entries(f, lines[..k]).value;
    forall i | 0 <= i < |front|
      ensures front[i] == all[i] && front[..i] == all[..i]
    {
    }
  }

  /** The last entry read for recording is the last entry of a log whose lines all parse. */
  lemma {:induction false} LastEntryIsLast(f: Format, lines: seq<string>)
    requires Entries(f, lines).Some?
    ensures var entries := Entries(f, lines).value;
            LastEntry(f, lines) == if entries == [] then None else Some(entries[|entries| - 1])
  {
    if lines != [] {
      LastEntryIsLast(f, lines[..|lines| - 1]);
    }
  }

  /** Recording preserves the verdict in both directions and, on an intact log, keeps all its entries. */
  lemma RecordKeepsVerdict(f: Format, lines: seq<string>, event: Event)
    requires f.Lawful()
    ensures var entry := NextEntry(f, LastEntry(f, lines), event);
            var after := lines + [f.render(entry)];
            && (Intact(f, after) <==> Intact(f, lines))
            && (Intact(f, lines) ==> Entries(f, after).value == Entries(f, lines).value + [entry])
  {
    var entry := NextEntry(f, LastEntry(f, lines), event);
    var after := lines + [f.render(entry)];
    assert after[..|lines|] == lines;
    if Intact(f, lines) {
      LastEntryIsLast(f, lines);
      ChainStep(f, Entries(f, lines).value, entry);
    }
    if Intact(f, after) {
      PrefixIsIntact(f, after, |lines|);
    }
  }

  /** A log that only this program wrote. */
  function Written(f: Format, events: seq<Event>): seq<string> {
    if events == [] then []
    else
      var front := Written(f, events[..|events| - 1]);
      front + [f.render(NextEntry(f, LastEntry(f, front), events[|events| - 1]))]
  }

  /** Such a log always verifies and tells every event, once and in order. */
  lemma {:induction false} WrittenIsIntact(f: Format, events: seq<Event>)
    requires f.Lawful()
    ensures Intact(f, Written(f, events))
    ensures var entries := Entries(f, Written(f, events)).value;
            |entries| == |events| &&
            forall i :: 0 <= i < |events| ==>
              && entries[i].runId == events[i].runId && entries[i].tenantId == events[i].tenantId
              && entries[i].timestamp == events[i].now
              && entries[i].promptHash == f.textHash(events[i].prompt)
              && entries[i].outputHash == f.textHash(events[i].output)
  {
    if events != [] {
      var front := events[..|events| - 1];
      WrittenIsIntact(f, front);
      RecordKeepsVerdict(f, Written(f, front), events[|events| - 1]);
    }
  }

  lemma Link(f: Format, entries: seq<AuditEntry>, i: nat)
    requires Chained(f, entries) && i < |entries|
    ensures entries[i].number == i && entries[i].entryHash == f.bodyHash(BodyOf(entries[i]))
    ensures entries[i].prevHash == if i == 0 then "" else entries[i - 1].entryHash
  {
    assert entries[i].prevHash == LastHash(entries[..i]);
  }

  lemma SameHashSameEntry(f: Format, a: AuditEntry, b: AuditEntry)
    requires f.Lawful() && a.entryHash == b.entryHash
    requires a.entryHash == f.bodyHash(BodyOf(a)) && b.entryHash == f.bodyHash(BodyOf(b))
    ensures a == b
  {
    assert BodyOf(a) == BodyOf(b);
  }

  lemma SharedHashOneStepBack(f: Format, a: seq<AuditEntry>, b: seq<AuditEntry>, i: nat, j: nat)
    requires f.Lawful() && Chained(f, a) && Chained(f, b)
    requires i < |a| && j < |b| && a[i].entryHash == b[j].entryHash
    ensures i == j && a[i] == b[i] && (i > 0 ==> a[i - 1].entryHash == b[i - 1].entryHash)
  {
    Link(f, a, i);
    Link(f, b, j);
    SameHashSameEntry(f, a[i], b[j]);
  }

  /** Two chains that have an entry hash in common, anywhere, have it at the same place and agree on
      everything up to there. */
  lemma {:induction false} SharedHashSharesHistory(f: Format, a: seq<AuditEntry>, b: seq<AuditEntry>, i: nat, j: nat)
    requires f.Lawful() && Chained(f, a) && Chained(f, b)
    requires i < |a| && j < |b| && a[i].entryHash == b[j].entryHash
    ensures i == j && forall k :: 0 <= k <= i ==> a[k] == b[k]
  {
    SharedHashOneStepBack(f, a, b, i, j);
    if i > 0 {
      SharedHashSharesHistory(f, a, b, i - 1, i - 1);
    }
  }

  /** Two logs that verify and end in the same hash hold the same entries. */
  lemma SameLastHashSameLog(f: Format, a: seq<string>, b: seq<string>)
    requires f.Lawful() && Intact(f, a) && Intact(f, b)
    requires Entries(f, a).value != [] && Entries(f, b).value != []
    requires LastHash(Entries(f, a).value) == LastHash(Entries(f, b).value)
    ensures Entries(f, a) == Entries(f, b)
  {
    var x, y := Entries(f, a).value, Entries(f, b).value;
    SharedHashSharesHistory(f, x, y, |x| - 1, |y| - 1);
    assert x == y;
  }

  /** Chains of which the entry behind `k` is the same have the same entry at `k`. */
  lemma SuccessorFixesEntry(f: Format, a: seq<AuditEntry>, b: seq<AuditEntry>, k: nat)
    requires f.Lawful() && Chained(f, a) && Chained(f, b)
    ensures k + 1 < |a| == |b| && a[k + 1] == b[k + 1] ==> a[k] == b[k]
  {
    if k + 1 < |a| == |b| && a[k + 1] == b[k + 1] {
      Link(f, a, k + 1);
      Link(f, b, k + 1);
      SharedHashSharesHistory(f, a, b, k, k);
    }
  }

  /** Exchanging one entry of a verified log for another goes unnoticed if and only if it is the last
      entry and the new one has its number, its link and a recomputed hash of its own. */
  lemma TamperingUnnoticedIff(f: Format, entries: seq<AuditEntry>, k: nat, e: AuditEntry)
    requires f.Lawful() && Chained(f, entries) && k < |entries| && e != entries[k]
    ensures Chained(f, entries[k := e])
       <==> && k == |entries| - 1
            && e.number == k && e.prevHash == entries[k].prevHash
            && e.entryHash == f.bodyHash(BodyOf(e))
  {
    var changed := entries[k := e];
    if k == |entries| - 1 {
      assert entries == entries[..k] + [entries[k]] && changed == entries[..k] + [e];
      ChainStep(f, entries[..k], entries[k]);
      ChainStep(f, entries[..k], e);
    } else if Chained(f, changed) {
      SuccessorFixesEntry(f, entries, changed, k);
    }
  }

  /** Taking an entry out of a verified log goes unnoticed if and only if it is the last one. */
  lemma DeletionUnnoticedIff(f: Format, entries: seq<AuditEntry>, k: nat)
    requires Chained(f, entries) && k < |entries|
    ensures Chained(f, entries[..k] + entries[k + 1..]) <==> k == |entries| - 1
  {
    var left := entries[..k] + entries[k + 1..];
    if k == |entries| - 1 {
      assert left == entries[..k] && entries == left + [entries[k]];
      ChainStep(f, left, entries[k]);
    } else {
      assert left[k] == entries[k + 1];
      Link(f, entries, k + 1);
      if Chained(f, left) {
        Link(f, left, k);
      }
    }
  }

  /** A non-blank line of a readable log is the last entry of the lines up to it. */
  lemma LineIsEntry(f: Format, lines: seq<string>, i: nat)
    requires i < |lines| && Entries(f, lines[..i + 1]).Some? && f.strip(lines[i]) != ""
    ensures f.parse(f.strip(lines[i])).Some? && Entries(f, lines[..i]).Some?
    ensures Entries(f, lines[..i + 1]).value == Entries(f, lines[..i]).value + [f.parse(f.strip(lines[i])).value]
  {
    assert lines[..i + 1][..i] == lines[..i];
  }

  /** Overwriting a line that held an entry with one that reads differently, or blanking it out, while
      some later line still holds an entry, is always noticed. */
  lemma ChangedLineIsNoticed(f: Format, lines: seq<string>, k: nat, line: string)
    requires f.Lawful() && Intact(f, lines) && k < |lines|
    requires f.strip(lines[k]) != ""
    requires f.strip(line) == "" || f.parse(f.strip(line)) != f.parse(f.strip(lines[k]))
    requires exists i :: k < i < |lines| && f.strip(lines[i]) != ""
    ensures !Intact(f, lines[k := line])
  {
    var i :| k < i < |lines| && f.strip(lines[i]) != "";
    var changed := lines[k := line];
    if Intact(f, changed) {
      LaterLineFixesEntry(f, lines, changed, k, i);
    }
  }

  lemma LaterLineFixesEntry(f: Format, a: seq<string>, b: seq<string>, k: nat, i: nat)
    requires f.Lawful() && Intact(f, a) && Intact(f, b) && k < i < |a| == |b|
    requires f.strip(a[k]) != "" && f.strip(a[i]) != ""
    requires a[..k] == b[..k] && forall j :: k < j <= i ==> a[j] == b[j]
    ensures f.strip(b[k]) != "" && f.parse(f.strip(a[k])) == f.parse(f.strip(b[k]))
  {
    PrefixIsIntact(f, a, i + 1);
    PrefixIsIntact(f, b, i + 1);
    LineIsEntry(f, a, i);
    LineIsEntry(f, b, i);
    SameLastHashSameLog(f, a[..i + 1], b[..i + 1]);
    SameEntriesSameLine(f, a, b, k, i);
  }

  /** Logs that agree but for line `k`, where the first holds an entry, and read as the same entries up to
      line `i` read the same at `k`. */
  lemma {:induction false} SameEntriesSameLine(f: Format, a: seq<string>, b: seq<string>, k: nat, i: nat)
    requires k <= i < |a| == |b| && Entries(f, a[..i + 1]).Some? && Entries(f, a[..i + 1]) == Entries(f, b[..i + 1])
    requires a[..k] == b[..k] && forall j :: k < j <= i ==> a[j] == b[j]
    requires f.strip(a[k]) != ""
    ensures f.strip(b[k]) != "" && f.parse(f.strip(a[k])) == f.parse(f.strip(b[k]))
  {
    if k == i {
      LineIsEntry(f, a, i);
      LastLineSame(f, a, b, k);
    } else {
      if f.strip(a[i]) != "" {
        LineIsEntry(f, a, i);
        LineIsEntry(f, b, i);
        SameSplit(Entries(f, a[..i]).value, f.parse(f.strip(a[i])).value, Entries(f, b[..i]).value, f.parse(f.strip(b[i])).value);
      } else {
        assert a[..i + 1][..i] == a[..i] && b[..i + 1][..i] == b[..i];
      }
      SameEntriesSameLine(f, a, b, k, i - 1);
    }
  }

  lemma LastLineSame(f: Format, a: seq<string>, b: seq<string>, k: nat)
    requires k < |a| == |b| && Entries(f, a[..k + 1]).Some? && Entries(f, a[..k + 1]) == Entries(f, b[..k + 1])
    requires a[..k] == b[..k] && f.strip(a[k]) != ""
    ensures f.strip(b[k]) != "" && f.parse(f.strip(a[k])) == f.parse(f.strip(b[k]))
  {
    LineIsEntry(f, a, k);
    var before, e := Entries(f, a[..k]).value, f.parse(f.strip(a[k])).value;
    assert b[..k + 1][..k] == b[..k];
    assert |Entries(f, b[..k + 1]).value| == |before| + 1;
    if f.strip(b[k]) != "" {
      LineIsEntry(f, b, k);
      SameSplit(before, e, before, f.parse(f.strip(b[k])).value);
    }
  }

  lemma SameSplit(a: seq<AuditEntry>, x: AuditEntry, b: seq<AuditEntry>, y: AuditEntry)
    requires a + [x] == b + [y]
    ensures a == b && x == y
  {
    assert (a + [x])[..|a|] == a && (b + [y])[..|b|] == b;
    assert (a + [x])[|a|] == x && (b + [y])[|b|] == y;
  }
}
