/** The ledger CSV export (`BillingDocumentService.buildCsv`): a fixed
    header line, then one line per entry, oldest trip first, each of eight
    quoted fields.

    Fields are quoted as in section 2 of RFC 4180 (wrapped in double
    quotes, embedded quotes doubled), but lines end in LF rather than CRLF.
    To show that the quoting keeps every field intact, the module also
    defines a reader for such documents and proves that it reads back the
    fields that were written, whatever characters they contain.

    The date-time formatter (`yyyy-MM-dd HH:mm`) and `Double.toString` are
    parameters.
 */
module BillingCsv {
  import opened Wrappers
  import opened Clock
  import Text
  import Seqs
  import opened Ledger

  const Header: string := "ledgerEntryId,planName,startTime,endTime,durationMinutes,distanceKm,total,paymentStatus"

  /** The number of fields on every line. */
  const Columns: nat := 8

  // ---------------------------------------------------------------------
  // Quoting

  /** `text.replace("\"", "\"\"")`. */
  function Escape(s: string): (r: string)
    decreases |s|
  {
    if |s| == 0 then ""
    else (if s[0] == '"' then "\"\"" else [s[0]]) + Escape(s[1..])
  }

  /** `quote(value)`: null quotes as the empty text. */
  function Quote(v: Option<string>): (r: string)
    ensures |r| >= 2 && r[0] == '"'
  {
    "\"" + Escape(v.GetOr("")) + "\""
  }

  function QuoteText(s: string): string {
    Quote(Some(s))
  }

  /** Reading the rest of a quoted field, given the text after its opening
      quote: a doubled quote stands for one quote, and the first quote that
      is not doubled closes the field. The text after it is returned too. */
  function ScanQuoted(t: string): (r: Option<(string, string)>)
    ensures r.Some? ==> |r.value.1| < |t|
    decreases |t|
  {
    if |t| == 0 then None
    else if t[0] == '"' then
      if |t| >= 2 && t[1] == '"' then
        match ScanQuoted(t[2..])
        case None => None
        case Some(xr) => Some(("\"" + xr.0, xr.1))
      else Some(("", t[1..]))
    else
      match ScanQuoted(t[1..])
      case None => None
      case Some(xr) => Some(([t[0]] + xr.0, xr.1))
  }

  /** Reading one quoted field at the start of `s`. */
  function ReadField(s: string): (r: Option<(string, string)>)
    ensures r.Some? ==> |r.value.1| < |s|
  {
    if |s| > 0 && s[0] == '"' then ScanQuoted(s[1..]) else None
  }

  lemma {:induction false} ScanEscaped(x: string, rest: string)
    requires |rest| == 0 || rest[0] != '"'
    ensures ScanQuoted(Escape(x) + "\"" + rest) == Some((x, rest))
    decreases |x|
  {
    if |x| == 0 {
      assert Escape(x) + "\"" + rest == "\"" + rest;
    } else {
      ScanEscaped(x[1..], rest);
      var tail := Escape(x[1..]) + "\"" + rest;
      if x[0] == '"' {
        assert Escape(x) + "\"" + rest == "\"\"" + tail;
        ScanDoubledQuote(tail, x[1..], rest);
      } else {
        assert Escape(x) + "\"" + rest == [x[0]] + tail;
        ScanPlainChar(x[0], tail, x[1..], rest);
      }
      assert x == [x[0]] + x[1..];
    }
  }

  /** A doubled quote in front of a field body reads as one quote. */
  lemma ScanDoubledQuote(tail: string, body: string, rest: string)
    requires ScanQuoted(tail) == Some((body, rest))
    ensures ScanQuoted("\"\"" + tail) == Some(("\"" + body, rest))
  {
    assert ("\"\"" + tail)[2..] == tail;
  }

  /** Any other character in front of a field body reads as itself. */
  lemma ScanPlainChar(c: char, tail: string, body: string, rest: string)
    requires c != '"' && ScanQuoted(tail) == Some((body, rest))
    ensures ScanQuoted([c] + tail) == Some(([c] + body, rest))
  {
    assert ([c] + tail)[1..] == tail;
  }

  /** Round trip: a quoted field reads back as the text that was quoted,
      whatever it contains, and reading stops right after it. */
  lemma QuoteRoundTrip(x: string, rest: string)
    requires |rest| == 0 || rest[0] != '"'
    ensures ReadField(QuoteText(x) + rest) == Some((x, rest))
  {
    ScanEscaped(x, rest);
    assert (QuoteText(x) + rest)[1..] == Escape(x) + "\"" + rest;
  }

  /** Null is written exactly like the empty text. */
  lemma NullQuotesAsEmpty()
    ensures Quote(None) == QuoteText("") == "\"\""
  {
  }

  // ---------------------------------------------------------------------
  // Amounts

  /** `setScale(2, HALF_UP)` as a number of cents: a half cent rounds away from zero. */
  function HalfUpCents(x: real): (c: int)
    ensures x >= 0.0 ==> x * 100.0 - 0.5 < c as real <= x * 100.0 + 0.5
    ensures x < 0.0 ==> x * 100.0 - 0.5 <= c as real < x * 100.0 + 0.5
  {
    if x >= 0.0 then (x * 100.0 + 0.5).Floor else -((-x * 100.0 + 0.5).Floor)
  }

  /** `toPlainString()` of a scale-2 decimal of `c` cents. */
  function CentsText(c: int): (s: string)
    ensures |s| >= 4 && s[|s| - 3] == '.'
  {
    (if c < 0 then "-" else "") + CentsBody(if c < 0 then -c else c)
  }

  /** The unsigned part of `CentsText`: whole units, a point, two digits. */
  function CentsBody(n: nat): string {
    Text.NatToString(n / 100) + "." + [Text.DigitChar(n % 100 / 10), Text.DigitChar(n % 10)]
  }

  /** `amount(value)`: null is "0.00". An amount reads back as the value
      rounded half-up to cents, so within half a cent of it, and null reads
      back as zero. */
  function Amount(v: Option<real>): (r: string)
    ensures ParseCents(r) == Some(if v.None? then 0 else HalfUpCents(v.value))
  {
    if v.None? then
      assert Text.NatToString(0) == "0" && Text.DigitChar(0) == '0';
      assert CentsText(0) == "0.00";
      CentsRoundTrip(0);
      "0.00"
    else
      CentsRoundTrip(HalfUpCents(v.value));
      CentsText(HalfUpCents(v.value))
  }

  /** Reading a plain decimal with exactly two fraction digits as cents. */
  function ParseCents(s: string): Option<int> {
    var neg := |s| > 0 && s[0] == '-';
    match ParseUnsignedCents(if neg then s[1..] else s)
    case Some(v) => var x: int := v; Some(if neg then -x else x)
    case None => None
  }

  /** The unsigned part of `ParseCents`: "whole.dd" as cents. */
  function ParseUnsignedCents(body: string): Option<nat> {
    if |body| < 4 || body[|body| - 3] != '.' then None
    else
      match (Text.ParseNat(body[..|body| - 3]), Text.ParseNat(body[|body| - 2..]))
      case (Some(whole), Some(frac)) => Some(whole * 100 + frac)
      case _ => None
  }

  lemma TwoDigits(a: nat, b: nat)
    requires a < 10 && b < 10
    ensures Text.ParseNat([Text.DigitChar(a), Text.DigitChar(b)]) == Some(a * 10 + b)
  {
    var s := [Text.DigitChar(a), Text.DigitChar(b)];
    Text.DigitRoundTrip(a);
    Text.DigitRoundTrip(b);
    assert s[..1] == [Text.DigitChar(a)];
    assert s[..1][..0] == [];
    assert Text.DigitsValue(s[..1]) == a;
  }

  /** The unsigned text of `n` cents reads back as `n`. */
  lemma BodyRoundTrip(n: nat)
    ensures var body := CentsBody(n);
            |body| > 0 && body[0] != '-' && ParseUnsignedCents(body) == Some(n)
  {
    var t := n % 100 / 10;
    var u := n % 10;
    TensAndUnits(n);
    BodyShape(Text.NatToString(n / 100), [Text.DigitChar(t), Text.DigitChar(u)]);
    Text.ParseNatToString(n / 100);
    TwoDigits(t, u);
  }

  /** The last two decimal digits of `n` make up `n % 100`. */
  lemma TensAndUnits(n: nat)
    ensures n % 100 / 10 * 10 + n % 10 == n % 100
  {
    var q := n / 100;
    var r := n % 100;
    assert n == 100 * q + r;
    assert n == 10 * (10 * q + r / 10) + r % 10;
    assert n % 10 == r % 10;
  }

  /** Where the pieces of "whole.dd" sit. */
  lemma BodyShape(whole: string, digits: string)
    requires |whole| > 0 && Text.IsDigit(whole[0]) && |digits| == 2
    ensures var body := whole + "." + digits;
            && |body| >= 4 && body[|body| - 3] == '.' && body[0] != '-'
            && body[..|body| - 3] == whole && body[|body| - 2..] == digits
  {
    var body := whole + "." + digits;
    assert body[0] == whole[0];
    assert body[..|body| - 3] == whole;
    assert body[|body| - 2..] == digits;
  }

  /** Round trip: the text of an amount reads back as its cents. */
  lemma CentsRoundTrip(c: int)
    ensures ParseCents(CentsText(c)) == Some(c)
  {
    var n := if c < 0 then -c else c;
    BodyRoundTrip(n);
    var s := CentsText(c);
    assert (if c < 0 then s[1..] else s) == CentsBody(n);
  }

  /** Half a cent rounds away from zero on both sides. */
  lemma HalfCentRoundsAway()
    ensures HalfUpCents(0.005) == 1 && HalfUpCents(-0.005) == -1
    ensures Amount(Some(0.005)) == "0.01"
  {
    assert (0.005 * 100.0 + 0.5).Floor == 1;
    assert Text.NatToString(0) == "0";
  }

  // ---------------------------------------------------------------------
  // The document

  /** The eight fields of an entry's line, in header order. */
  function RowFields(e: LedgerEntry, formatTime: Time -> string, formatDistance: real -> string): (f: seq<string>)
    ensures |f| == Columns
  {
    [Text.IntToString(e.id), e.planName, formatTime(e.startTime), formatTime(e.endTime),
     Text.IntToString(e.durationMinutes), formatDistance(e.distanceKm), Amount(Some(e.total)),
     StatusName(e.paymentStatus)]
  }

  /** Fields quoted and joined by ','. */
  function LineText(fields: seq<string>): string {
    Text.Join(Seqs.MapSeq(fields, QuoteText), ",")
  }

  /** `buildCsv(entries)`: the header, a line feed, and the entries' lines
      ordered by start time (ties in their given order), joined by line feeds. */
  function BuildCsv(entries: seq<LedgerEntry>, formatTime: Time -> string, formatDistance: real -> string): (r: string)
    ensures |r| > |Header| && r[..|Header| + 1] == Header + "\n"
    ensures |entries| == 0 ==> r == Header + "\n"
  {
    var sorted := Seqs.SortAsc(entries, StartTimeOf);
    var lines := Seqs.MapSeq(sorted, (e: LedgerEntry) => LineText(RowFields(e, formatTime, formatDistance)));
    Header + "\n" + Text.Join(lines, "\n")
  }

  /** Reading `n` quoted fields separated by ','. */
  function ReadFields(s: string, n: nat): (r: Option<(seq<string>, string)>)
    ensures r.Some? ==> |r.value.0| == n && |r.value.1| < |s|
    decreases n
  {
    if n == 0 then None
    else
      match ReadField(s)
      case None => None
      case Some(xr) =>
        if n == 1 then Some(([xr.0], xr.1))
        else if |xr.1| > 0 && xr.1[0] == ',' then
          match ReadFields(xr.1[1..], n - 1)
          case None => None
          case Some(fr) => Some(([xr.0] + fr.0, fr.1))
        else None
  }

  /** Reading lines of `Columns` fields separated by line feeds. */
  function ReadLines(s: string): (r: Option<seq<seq<string>>>)
    decreases |s|
  {
    if |s| == 0 then Some([])
    else
      match ReadFields(s, Columns)
      case None => None
      case Some(fr) =>
        if |fr.1| == 0 then Some([fr.0])
        else if fr.1[0] == '\n' then
          match ReadLines(fr.1[1..])
          case None => None
          case Some(rows) => Some([fr.0] + rows)
        else None
  }

  /** Reading an export: the header line, then the lines. */
  function ReadCsv(doc: string): Option<seq<seq<string>>> {
    if Header + "\n" <= doc then ReadLines(doc[|Header| + 1..]) else None
  }

  lemma {:induction false} FieldsRoundTrip(fields: seq<string>, rest: string)
    requires |fields| > 0
    requires |rest| == 0 || (rest[0] != '"' && rest[0] != ',')
    ensures ReadFields(LineText(fields) + rest, |fields|) == Some((fields, rest))
    decreases |fields|
  {
    var parts := Seqs.MapSeq(fields, QuoteText);
    if |fields| == 1 {
      assert parts == [QuoteText(fields[0])];
      assert LineText(fields) == QuoteText(fields[0]);
      QuoteRoundTrip(fields[0], rest);
      assert fields == [fields[0]];
    } else {
      var tail := LineText(fields[1..]) + rest;
      assert parts[1..] == Seqs.MapSeq(fields[1..], QuoteText);
      assert LineText(fields) + rest == QuoteText(fields[0]) + ("," + tail);
      QuoteRoundTrip(fields[0], "," + tail);
      assert ("," + tail)[1..] == tail;
      FieldsRoundTrip(fields[1..], rest);
      assert fields == [fields[0]] + fields[1..];
    }
  }

  lemma {:induction false} LinesRoundTrip(rows: seq<seq<string>>)
    requires forall k :: 0 <= k < |rows| ==> |rows[k]| == Columns
    ensures ReadLines(Text.Join(Seqs.MapSeq(rows, LineText), "\n")) == Some(rows)
    decreases |rows|
  {
    if |rows| == 0 {
    } else if |rows| == 1 {
      var lines := Seqs.MapSeq(rows, LineText);
      assert lines == [LineText(rows[0])];
      var s := Text.Join(lines, "\n");
      assert s == LineText(rows[0]) + "";
      FieldsRoundTrip(rows[0], "");
      assert rows == [rows[0]];
    } else {
      var lines := Seqs.MapSeq(rows, LineText);
      var tail := Text.Join(Seqs.MapSeq(rows[1..], LineText), "\n");
      assert lines[1..] == Seqs.MapSeq(rows[1..], LineText);
      assert Text.Join(lines, "\n") == LineText(rows[0]) + ("\n" + tail);
      FieldsRoundTrip(rows[0], "\n" + tail);
      assert ("\n" + tail)[1..] == tail;
      LinesRoundTrip(rows[1..]);
      assert rows == [rows[0]] + rows[1..];
    }
  }

  /** The lines of an export, field by field: the entries ordered by start time. */
  function ExportRows(entries: seq<LedgerEntry>, formatTime: Time -> string, formatDistance: real -> string)
    : seq<seq<string>>
  {
    Seqs.MapSeq(Seqs.SortAsc(entries, StartTimeOf), (e: LedgerEntry) => RowFields(e, formatTime, formatDistance))
  }

  /** Round trip: reading an export gives back, line by line and field by
      field, the entries ordered by start time, whatever characters the plan
      names and formatted values contain (quotes, commas and line feeds
      included). */
  lemma CsvRoundTrip(entries: seq<LedgerEntry>, formatTime: Time -> string, formatDistance: real -> string)
    ensures ReadCsv(BuildCsv(entries, formatTime, formatDistance)) == Some(ExportRows(entries, formatTime, formatDistance))
  {
    var rows := ExportRows(entries, formatTime, formatDistance);
    var sorted := Seqs.SortAsc(entries, StartTimeOf);
    var lines := Seqs.MapSeq(sorted, (e: LedgerEntry) => LineText(RowFields(e, formatTime, formatDistance)));
    assert lines == Seqs.MapSeq(rows, LineText);
    LinesRoundTrip(rows);
    var doc := BuildCsv(entries, formatTime, formatDistance);
    assert doc[|Header| + 1..] == Text.Join(lines, "\n");
  }
}
