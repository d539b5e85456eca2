/** Comma-separated values as section 2 of RFC 4180 lays them out: fields
    separated by commas, a field that is enclosed in double quotes has each
    double quote inside it doubled (rules 5 to 7). Records are separated by
    a line feed alone, where rule 1 asks for a carriage return and a line
    feed. The reader here is the partner of the writers that build such
    text. */
module Csv {
  import opened Wrappers
  import opened Text

  /** Doubles every double quote. */
  function Escape(s: string): (r: string)
    ensures |r| >= |s|
  {
    if |s| == 0 then ""
    else (if s[0] == '"' then "\"\"" else [s[0]]) + Escape(s[1..])
  }

  /** `"${x.replace(/"/g, '""')}"`. */
  function Quote(s: string): (r: string)
    ensures |r| >= 2 && r[0] == '"' && r[|r| - 1] == '"'
  {
    "\"" + Escape(s) + "\""
  }

  function QuoteAll(fields: seq<string>): (r: seq<string>)
    ensures |r| == |fields| && forall i :: 0 <= i < |r| ==> r[i] == Quote(fields[i])
  {
    seq(|fields|, i requires 0 <= i < |fields| => Quote(fields[i]))
  }

  /** A field that may be written without quotes. */
  predicate Plain(s: string) {
    forall i :: 0 <= i < |s| ==> s[i] != ',' && s[i] != '\n' && s[i] != '"' && s[i] != '\r'
  }

  // ------------------------------------------------------------ reading

  /** Reads the inside of a quoted field up to its closing quote; a doubled
      quote stands for one quote. None when the closing quote is missing. */
  function ReadQuoted(s: string): (r: Option<(string, string)>)
    ensures r.Some? ==> |r.value.1| < |s|
  {
    if |s| == 0 then None
    else if s[0] == '"' then
      if |s| >= 2 && s[1] == '"' then
        match ReadQuoted(s[2..])
        case None => None
        case Some((f, rest)) => Some(("\"" + f, rest))
      else Some(("", s[1..]))
    else
      match ReadQuoted(s[1..])
      case None => None
      case Some((f, rest)) => Some(([s[0]] + f, rest))
  }

  /** Reads an unquoted field up to the next comma or line feed. */
  function ReadPlain(s: string): (r: (string, string))
    ensures |r.1| <= |s|
  {
    if |s| == 0 || s[0] == ',' || s[0] == '\n' then ("", s)
    else
      var (f, rest) := ReadPlain(s[1..]);
      ([s[0]] + f, rest)
  }

  function ReadField(s: string): (r: Option<(string, string)>)
    ensures r.Some? ==> |r.value.1| <= |s|
  {
    if |s| > 0 && s[0] == '"' then ReadQuoted(s[1..]) else Some(ReadPlain(s))
  }

  /** Reads the fields of one record; what follows is left over. */
  function ReadRecord(s: string): (r: Option<(seq<string>, string)>)
    ensures r.Some? ==> |r.value.0| >= 1 && |r.value.1| <= |s|
    decreases |s|
  {
    match ReadField(s)
    case None => None
    case Some((f, rest)) =>
      if |rest| > 0 && rest[0] == ',' then
        match ReadRecord(rest[1..])
        case None => None
        case Some((fs, rest2)) => Some(([f] + fs, rest2))
      else Some(([f], rest))
  }

  /** Reads a whole text as records separated by line feeds. */
  function ReadRecords(s: string): (r: Option<seq<seq<string>>>)
    ensures r.Some? ==> |r.value| >= 1
    decreases |s|
  {
    match ReadRecord(s)
    case None => None
    case Some((fs, rest)) =>
      if rest == "" then Some([fs])
      else if rest[0] == '\n' then
        match ReadRecords(rest[1..])
        case None => None
        case Some(rs) => Some([fs] + rs)
      else None
  }

  // ------------------------------------------------------------ round trip

  /** What may follow a quoted field without being read as part of it. */
  predicate AfterQuote(tail: string) {
    tail == "" || tail[0] != '"'
  }

  lemma {:induction false} EscapeRead(x: string, tail: string)
    requires AfterQuote(tail)
    ensures ReadQuoted(Escape(x) + "\"" + tail) == Some((x, tail))
  {
    if |x| == 0 {
      assert Escape(x) + "\"" + tail == "\"" + tail;
    } else {
      var rest := Escape(x[1..]) + "\"" + tail;
      assert ReadQuoted(rest) == Some((x[1..], tail)) by {
        EscapeRead(x[1..], tail);
      }
      var head := if x[0] == '"' then "\"\"" else [x[0]];
      assert Escape(x) + "\"" + tail == head + rest by {
        assert Escape(x) == head + Escape(x[1..]);
      }
      assert (head + rest)[|head|..] == rest;
      assert [x[0]] + x[1..] == x;
    }
  }

  /** A quoted field reads back as its text. */
  lemma QuotedRead(x: string, tail: string)
    requires AfterQuote(tail)
    ensures ReadField(Quote(x) + tail) == Some((x, tail))
  {
    assert (Quote(x) + tail)[1..] == Escape(x) + "\"" + tail;
    EscapeRead(x, tail);
  }

  /** What may follow a field: the end, or the next field or record. */
  predicate AfterField(tail: string) {
    tail == "" || tail[0] == ',' || tail[0] == '\n'
  }

  /** A plain field reads back as itself. */
  lemma {:induction false} PlainRead(x: string, tail: string)
    requires Plain(x) && AfterField(tail)
    ensures ReadPlain(x + tail) == (x, tail)
  {
    if |x| == 0 {
      assert x + tail == tail;
    } else {
      assert (x + tail)[1..] == x[1..] + tail;
      PlainRead(x[1..], tail);
      assert [x[0]] + x[1..] == x;
    }
  }

  /** `e` is a way of writing the field `x`: quoted, or as it is when plain. */
  predicate Writes(e: string, x: string) {
    e == Quote(x) || (e == x && Plain(x))
  }

  lemma FieldRead(e: string, x: string, tail: string)
    requires Writes(e, x) && AfterField(tail)
    ensures ReadField(e + tail) == Some((x, tail))
  {
    if e == Quote(x) {
      QuotedRead(x, tail);
    } else {
      PlainRead(x, tail);
      if |x| > 0 {
        assert (x + tail)[0] == x[0];
      } else {
        assert x + tail == tail;
      }
    }
  }

  /** A record written as its fields joined by commas reads back as its
      fields, whatever record follows. */
  lemma {:induction false} RecordRead(es: seq<string>, xs: seq<string>, tail: string)
    requires |es| == |xs| >= 1 && forall i :: 0 <= i < |es| ==> Writes(es[i], xs[i])
    requires tail == "" || tail[0] == '\n'
    ensures ReadRecord(Join(es, ",") + tail) == Some((xs, tail))
  {
    if |es| == 1 {
      FieldRead(es[0], xs[0], tail);
      assert [xs[0]] == xs;
    } else {
      var more := Join(es[1..], ",") + tail;
      assert Join(es, ",") + tail == es[0] + ("," + more);
      FieldRead(es[0], xs[0], "," + more);
      assert ("," + more)[1..] == more;
      RecordRead(es[1..], xs[1..], tail);
      assert [xs[0]] + xs[1..] == xs;
    }
  }

  /** A text written as records joined by line feeds reads back as those
      records: one record per line written, each with its fields. */
  lemma {:induction false} RecordsRead(lines: seq<string>, es: seq<seq<string>>, records: seq<seq<string>>)
    requires |lines| == |es| == |records| >= 1
    requires forall k :: 0 <= k < |lines| ==> lines[k] == Join(es[k], ",")
    requires forall k :: 0 <= k < |es| ==> |es[k]| == |records[k]| >= 1
    requires forall k, i :: 0 <= k < |es| && 0 <= i < |es[k]| ==> Writes(es[k][i], records[k][i])
    ensures ReadRecords(Join(lines, "\n")) == Some(records)
  {
    if |lines| == 1 {
      RecordRead(es[0], records[0], "");
      assert Join(lines, "\n") + "" == lines[0];
      assert [records[0]] == records;
    } else {
      var more := Join(lines[1..], "\n");
      assert Join(lines, "\n") == lines[0] + ("\n" + more);
      RecordRead(es[0], records[0], "\n" + more);
      assert ("\n" + more)[1..] == more;
      RecordsRead(lines[1..], es[1..], records[1..]);
      assert [records[0]] + records[1..] == records;
    }
  }
}
