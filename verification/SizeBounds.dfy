/**
 Two places that cut what they store down to a number of bytes. Sizes of encoded strings and rows are given; how the
 encoding puts them together is written out.
 */
module EvidencePayload {
  import opened Wrappers

  /** What redaction and encoding do to one message or one row. */
  datatype Encoding<!Row> = Encoding(redactText: string -> string, redactRow: Row -> Row, textBytes: string -> nat,
                                     rowBytes: Row -> nat)

  datatype Payload<Row> = Payload(message: Option<string>, samples: Option<seq<Row>>)

  const MESSAGE_KEY: nat := |"'error_message': "|
  const SAMPLES_KEY: nat := |"'evidence_samples': "|
  const SUFFIX := "... [TRUNCATED]"

  /** Rows of a list, joined by a comma and a space, in brackets. */
  function RowsBytes<Row>(e: Encoding<Row>, rows: seq<Row>): nat {
    if |rows| == 0 then 2
    else RowsBytes(e, rows[..|rows| - 1]) + e.rowBytes(rows[|rows| - 1]) + (if |rows| == 1 then 0 else 2)
  }

  /** The encoded size of a payload. */
  function Size<Row>(e: Encoding<Row>, p: Payload<Row>): nat {
    2 + (if p.message.Some? then MESSAGE_KEY + e.textBytes(p.message.value) else 0)
    + (if p.samples.Some? then SAMPLES_KEY + RowsBytes(e, p.samples.value) else 0)
    + (if p.message.Some? && p.samples.Some? then 2 else 0)
  }

  function Min(a: nat, b: nat): nat { if a < b then a else b }

  function Redacted<Row>(e: Encoding<Row>, rows: seq<Row>): (r: seq<Row>)
    ensures |r| == |rows|
  {
    seq(|rows|, i requires 0 <= i < |rows| => e.redactRow(rows[i]))
  }

  /** The redacted message, if there is one to show. */
  function MessageOf<Row>(e: Encoding<Row>, error: Option<string>): Option<string> {
    if error.Some? && error.value != "" then Some(e.redactText(error.value)) else None
  }

  /** Drops sample rows from the end until the payload fits. */
  method DropRows<Row>(e: Encoding<Row>, message: Option<string>, rows: seq<Row>, maxBytes: int) returns (k: nat)
    ensures k <= |rows|
    ensures k > 0 ==> Size(e, Payload(message, Some(rows[..k]))) <= maxBytes
    ensures forall n :: k < n <= |rows| ==> Size(e, Payload(message, Some(rows[..n]))) > maxBytes
  {
    k := |rows|;
    while k > 0 && Size(e, Payload(message, Some(rows[..k]))) > maxBytes
      invariant k <= |rows|
      invariant forall n :: k < n <= |rows| ==> Size(e, Payload(message, Some(rows[..n]))) > maxBytes
    {
      k := k - 1;
    }
  }

  /** Shortens the message five characters at a time until the payload fits, or gives the message up. */
  method Shorten<Row>(e: Encoding<Row>, full: Payload<Row>, maxBytes: int) returns (p: Payload<Row>)
    requires full.message.Some?
    ensures p.samples == full.samples
    ensures p.message.Some? ==>
              && Size(e, p) <= maxBytes
              && exists n :: 0 <= n <= |full.message.value| && p.message.value == full.message.value[..n] + SUFFIX
  {
    var message := full.message.value;
    var suffixBytes := 2 + MESSAGE_KEY + e.textBytes(SUFFIX);
    if suffixBytes > maxBytes {
      return full.(message := None);
    }
    var n: int := Min(|message|, maxBytes - suffixBytes);
    while n > -1
      invariant n <= |message|
    {
      p := full.(message := Some(message[..n] + SUFFIX));
      if Size(e, p) <= maxBytes {
        return;
      }
      n := n - 5;
    }
    p := full.(message := None);
  }

  /** The samples a payload may show: the first `maxRows`, redacted. */
  function Admitted<Row>(e: Encoding<Row>, samples: seq<Row>, maxRows: nat): (r: seq<Row>)
    ensures |r| == Min(|samples|, maxRows)
  {
    Redacted(e, samples)[..Min(|samples|, maxRows)]
  }

  /** The payload stored with a result. */
  method Prepare<Row>(e: Encoding<Row>, samples: seq<Row>, error: Option<string>, maxRows: nat, maxBytes: int)
      returns (p: Payload<Row>)
    // The bound holds exactly when it can: with no rows allowed, an empty list of samples stays in the payload.
    ensures Size(e, p) <= maxBytes <==>
              maxBytes >= 2 && (samples == [] || maxRows >= 1 || Size(e, Payload(None, Some([]))) <= maxBytes)
    // Kept samples come with the full message, and no longer prefix of the admitted samples would have fitted.
    ensures maxBytes >= 2 && maxRows >= 1 && p.samples.Some? ==>
              && p.message == MessageOf(e, error) && 0 < |p.samples.value|
              && p.samples.value <= Admitted(e, samples, maxRows)
              && forall n :: |p.samples.value| < n <= |Admitted(e, samples, maxRows)| ==>
                   Size(e, Payload(p.message, Some(Admitted(e, samples, maxRows)[..n]))) > maxBytes
    // Without samples, not even one would have fitted; the message is whole whenever it fits alone.
    ensures maxBytes >= 2 && maxRows >= 1 && p.samples.None? && samples != [] ==>
              Size(e, Payload(MessageOf(e, error), Some(Admitted(e, samples, maxRows)[..1]))) > maxBytes
    ensures maxBytes >= 2 && p.samples.None? && Size(e, Payload(MessageOf(e, error), None)) <= maxBytes ==>
              p.message == MessageOf(e, error)
    ensures p.message.Some? && p.message != MessageOf(e, error) ==>
              && MessageOf(e, error).Some?
              && exists n ::
                   0 <= n <= |MessageOf(e, error).value| && p.message.value == MessageOf(e, error).value[..n] + SUFFIX
  {
    if maxBytes < 2 {
      return Payload(None, None);
    }
    var message := MessageOf(e, error);
    p := Payload(message, None);
    if samples != [] {
      var admitted := Admitted(e, samples, maxRows);
      var k := DropRows(e, message, admitted, maxBytes);
      if k > 0 {
        return Payload(message, Some(admitted[..k]));
      }
      if admitted == [] {
        p := Payload(message, Some([]));
      }
    }
    if Size(e, p) > maxBytes && message.Some? {
      p := Shorten(e, p, maxBytes);
    }
  }
}

/** The summary of a scan, cut to fit its column. */
module ScanSummary {
  import opened Wrappers

  const MAX_SUMMARY_BYTES: nat := 500 * 1024
  const MAX_COUNTER: nat := 0x1_0000_0000_0000_0000
  const HALF: nat := MAX_SUMMARY_BYTES / 2 - 1024

  /** Encoded sizes of the items of a list, and of the list: commas between them, brackets around. */
  function ListBytes(items: seq<nat>): nat {
    if |items| == 0 then 2 else ListBytes(items[..|items| - 1]) + items[|items| - 1] + (if |items| == 1 then 0 else 1)
  }

  /** The running count: one byte for the comma of every item, the first included. */
  function Used(items: seq<nat>): nat {
    if |items| == 0 then 2 else Used(items[..|items| - 1]) + items[|items| - 1] + 1
  }

  lemma {:induction false} CountIsSafe(items: seq<nat>)
    ensures ListBytes(items) <= Used(items) <= ListBytes(items) + 1
    ensures |items| > 0 ==> Used(items) == ListBytes(items) + 1
  {
    if |items| > 0 { CountIsSafe(items[..|items| - 1]); }
  }

  lemma {:induction false} UsedGrows(items: seq<nat>, k: nat)
    requires k <= |items|
    ensures Used(items[..k]) <= Used(items)
  {
    if k < |items| {
      UsedGrows(items[..|items| - 1], k);
      assert items[..|items| - 1][..k] == items[..k];
    } else {
      assert items[..k] == items;
    }
  }

  /**
   Keeps the longest prefix that takes less than the budget. The running count is one byte above the true size, so a
   list of exactly the budget is cut.
   */
  method Bounded(items: seq<nat>, budget: nat) returns (kept: seq<nat>, cut: bool)
    ensures kept <= items && cut == (kept != items)
    ensures |kept| > 0 ==> ListBytes(kept) < budget
    ensures forall n :: |kept| < n <= |items| ==> ListBytes(items[..n]) >= budget
    ensures budget >= 2 ==> ListBytes(kept) <= budget
  {
    var used := 2;
    kept := [];
    for i := 0 to |items|
      invariant kept == items[..i] && used == Used(kept)
      invariant i > 0 ==> used <= budget
    {
      assert items[..i + 1][..i] == items[..i];
      used := used + items[i] + 1;
      if used > budget {
        CountIsSafe(kept);
        forall n | i < n <= |items|
          ensures ListBytes(items[..n]) >= budget
        {
          CountIsSafe(items[..n]);
          UsedGrows(items[..n], i + 1);
          assert items[..n][..i + 1] == items[..i + 1];
        }
        return kept, true;
      }
      kept := kept + [items[i]];
    }
    CountIsSafe(kept);
    assert kept == items;
    cut := false;
  }

  datatype Summary = Summary(rows: nat, findings: nat, columns: nat, truncated: bool, scope: seq<nat>,
                             listed: Option<seq<nat>>)

  /** Decimal digits of a number. */
  function Digits(n: nat): nat {
    if n < 10 then 1 else 1 + Digits(n / 10)
  }

  /** The encoded size of a summary, keys, colons and commas included. */
  function Size(s: Summary): nat {
    2 + |"'total_rows':"| + Digits(s.rows) + |",'finding_count':"| + Digits(s.findings)
    + |",'columns_with_findings':"| + Digits(s.columns) + |",'truncated':"| + (if s.truncated then 4 else 5)
    + |",'scope_missing_columns':"| + ListBytes(s.scope)
    + (if s.listed.Some? then |",'findings':"| + ListBytes(s.listed.value) else 0)
  }

  lemma {:induction false} DigitsBound(n: nat)
    requires n < MAX_COUNTER
    ensures Digits(n) <= 20
  {
    TenTimes(10, 10);
    TenTimes(5, 5);
    TenTimes(2, 3);
    assert Ten(3) == 10 * Ten(2) && Ten(2) == 100;
    assert Ten(20) == 100_000_000_000_000_000_000;
    DigitsUpTo(n, 20);
  }

  function Ten(k: nat): nat {
    if k == 0 then 1 else 10 * Ten(k - 1)
  }

  lemma {:induction false} TenTimes(a: nat, b: nat)
    ensures Ten(a + b) == Ten(a) * Ten(b)
  {
    if a > 0 {
      TenTimes(a - 1, b);
      assert 10 * (Ten(a - 1) * Ten(b)) == (10 * Ten(a - 1)) * Ten(b);
    }
  }

  lemma {:induction false} DigitsUpTo(n: nat, k: nat)
    requires k >= 1 && n < Ten(k)
    ensures Digits(n) <= k
  {
    if n >= 10 { DigitsUpTo(n / 10, k - 1); }
  }

  /** The summary of a finished scan: with 64-bit counters it always fits, and it says so when anything was left out. */
  method Build(rows: nat, findings: seq<nat>, columns: nat, scope: seq<nat>, preview: bool) returns (s: Summary)
    ensures rows < MAX_COUNTER && |findings| < MAX_COUNTER && columns < MAX_COUNTER ==> Size(s) <= MAX_SUMMARY_BYTES
    ensures s.rows == rows && s.findings == |findings| && s.columns == columns
    ensures s.scope <= scope && s.listed.Some? == preview && (preview ==> s.listed.value <= findings)
    ensures s.truncated <==> s.scope != scope || (preview && s.listed.value != findings)
  {
    var kept, scopeCut := Bounded(scope, HALF);
    s := Summary(rows, |findings|, columns, false, kept, None);
    if preview {
      var listed, cut := Bounded(findings, HALF);
      s := s.(listed := Some(listed), truncated := cut);
    }
    s := s.(truncated := s.truncated || scopeCut);
    if rows < MAX_COUNTER && |findings| < MAX_COUNTER && columns < MAX_COUNTER { SizeFits(s); }
  }

  /** Three counters of at most twenty digits and two lists within half the limit each. */
  lemma SizeFits(s: Summary)
    requires s.rows < MAX_COUNTER && s.findings < MAX_COUNTER && s.columns < MAX_COUNTER
    requires ListBytes(s.scope) <= HALF && (s.listed.Some? ==> ListBytes(s.listed.value) <= HALF)
    ensures Size(s) <= MAX_SUMMARY_BYTES
  {
    hide Digits, ListBytes;
    DigitsBound(s.rows);
    DigitsBound(s.findings);
    DigitsBound(s.columns);
  }
}
