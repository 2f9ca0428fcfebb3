/** The PDF writer of the seeder: text as literal strings, objects into a growing buffer, and a
    cross-reference table of the offsets recorded on the way. */
module Pdf {
  import opened Base
  import opened Decimals

  // ----- Literal strings (ISO 32000-1, section 7.3.4.2) -----

  predicate IsPlain(c: char) {
    ' ' <= c <= '~'
  }

  /** What the page can show of a character. */
  function Shown(c: char): char {
    if IsPlain(c) then c else '?'
  }

  function ShownText(s: string): string {
    seq(|s|, i requires 0 <= i < |s| => Shown(s[i]))
  }

  function EscapeChar(c: char): string {
    if c == '(' || c == ')' || c == '\\' then ['\\', c] else [Shown(c)]
  }

  function Escape(s: string): string {
    if s == "" then "" else Escape(s[..|s| - 1]) + EscapeChar(s[|s| - 1])
  }

  method EscapeText(s: string) returns (r: string)
    ensures r == Escape(s)
  {
    r := "";
    for i := 0 to |s|
      invariant r == Escape(s[..i])
    {
      assert s[..i + 1][..i] == s[..i];
      if s[i] == '(' || s[i] == ')' || s[i] == '\\' {
        r := r + ['\\'];
        r := r + [s[i]];
      } else if ' ' <= s[i] <= '~' {
        r := r + [s[i]];
      } else {
        r := r + ['?'];
      }
    }
    assert s[..|s|] == s;
  }

  predicate IsOctal(c: char) {
    '0' <= c <= '7'
  }

  /** The octal digits after a backslash, three at most, and how many they are. */
  function OctalRun(s: string): (n: nat)
    ensures n <= 3 && n <= |s|
    ensures forall i :: 0 <= i < n ==> IsOctal(s[i])
  {
    if s == "" || !IsOctal(s[0]) then 0
    else if |s| == 1 || !IsOctal(s[1]) then 1
    else if |s| == 2 || !IsOctal(s[2]) then 2 else 3
  }

  function OctalValue(s: string, n: nat): nat
    requires n <= |s| && forall i :: 0 <= i < n ==> IsOctal(s[i])
  {
    if n == 0 then 0
    else
      assert IsOctal(s[n - 1]);
      OctalValue(s, n - 1) * 8 + (s[n - 1] as int - '0' as int)
  }

  /** One character after a backslash. */
  function Unescaped(c: char): char {
    match c
    case 'n' => '\n'
    case 'r' => '\r'
    case 't' => '\t'
    case 'b' => '\U{8}'
    case 'f' => '\U{C}'
    case _ => c
  }

  /** Reads up to the parenthesis that closes the string; `depth` counts the open ones inside it. */
  function ReadBody(s: string, depth: nat): (r: Option<(string, string)>)
    ensures r.Some? ==> |r.value.1| < |s|
    decreases |s|
  {
    if s == "" then None
    else if s[0] == ')' && depth == 0 then Some(("", s[1..]))
    else if s[0] == '\\' then
      if |s| == 1 then None
      else if s[1] == '\n' then ReadBody(s[2..], depth)
      else
        var n := OctalRun(s[1..]);
        if n > 0 then Prepend((OctalValue(s[1..], n) % 256) as char, ReadBody(s[1 + n..], depth))
        else Prepend(Unescaped(s[1]), ReadBody(s[2..], depth))
    else
      Prepend(s[0], ReadBody(s[1..], if s[0] == '(' then depth + 1 else if s[0] == ')' then depth - 1 else depth))
  }

  function Prepend(c: char, r: Option<(string, string)>): Option<(string, string)> {
    match r
    case None => None
    case Some((text, rest)) => Some(([c] + text, rest))
  }

  function ReadLiteral(s: string): Option<(string, string)> {
    if s == "" || s[0] != '(' then None else ReadBody(s[1..], 0)
  }

  lemma {:induction false} EscapeHead(s: string)
    requires s != ""
    ensures Escape(s) == EscapeChar(s[0]) + Escape(s[1..])
  {
    var n := |s| - 1;
    if n == 0 {
      assert s[..0] == "" && s[1..] == "";
    } else {
      EscapeHead(s[..n]);
      assert s[..n][1..] == s[1..][..n - 1];
      Assoc(EscapeChar(s[0]), Escape(s[1..][..n - 1]), EscapeChar(s[n]));
    }
  }

  lemma {:induction false} CharReadsBack(c: char, rest: string)
    ensures ReadBody(EscapeChar(c) + rest, 0) == Prepend(Shown(c), ReadBody(rest, 0))
  {
    var s := EscapeChar(c) + rest;
    if c == '(' || c == ')' || c == '\\' {
      assert s[0] == '\\' && s[1] == c && s[2..] == rest;
      assert s[1..][0] == c;
      assert OctalRun(s[1..]) == 0;
    } else {
      assert s[0] == Shown(c) && s[1..] == rest;
    }
  }

  lemma {:induction false} ShownHead(s: string)
    requires s != ""
    ensures ShownText(s) == [Shown(s[0])] + ShownText(s[1..])
  {
  }

  lemma {:induction false} BodyReadsBack(s: string, rest: string)
    ensures ReadBody(Escape(s) + ")" + rest, 0) == Some((ShownText(s), rest))
  {
    if s == "" {
      assert Escape(s) + ")" + rest == ")" + rest && ShownText(s) == "";
      assert (")" + rest)[1..] == rest;
    } else {
      EscapeHead(s);
      BodyReadsBack(s[1..], rest);
      var tail := Escape(s[1..]) + ")" + rest;
      Assoc(EscapeChar(s[0]), Escape(s[1..]), ")");
      Assoc(EscapeChar(s[0]), Escape(s[1..]) + ")", rest);
      CharReadsBack(s[0], tail);
      ShownHead(s);
    }
  }

  /** A reader of literal strings undoes the escaping: it finds the end of the string where the writer put
      it and the text the writer could show, whatever follows. */
  lemma {:induction false} LiteralReadsBack(s: string, rest: string)
    ensures ReadLiteral("(" + Escape(s) + ")" + rest) == Some((ShownText(s), rest))
  {
    var t := "(" + Escape(s) + ")" + rest;
    assert t[1..] == Escape(s) + ")" + rest;
    BodyReadsBack(s, rest);
  }

  // ----- The page content -----

  function TextLine(s: string): string {
    "(" + Escape(s) + ") Tj\n"
  }

  const OPENING := "BT\n/F1 16 Tf\n50 740 Td\n22 TL\n"
  const BODY_FONT := "/F1 11 Tf\n16 TL\nT*\n"
  const NEXT_LINE := "T*\n"
  const CLOSING := "ET\n"

  function Lines(lines: seq<string>): string {
    if lines == [] then "" else Lines(lines[..|lines| - 1]) + (NEXT_LINE + TextLine(lines[|lines| - 1]))
  }

  function Content(title: string, lines: seq<string>): string {
    OPENING + TextLine(title) + BODY_FONT + Lines(lines) + CLOSING
  }

  method WriteContent(title: string, lines: seq<string>) returns (stream: string)
    ensures stream == Content(title, lines)
  {
    var escaped := EscapeText(title);
    stream := OPENING + ("(" + escaped + ") Tj\n") + BODY_FONT;
    ghost var top := stream;
    for i := 0 to |lines|
      invariant stream == top + Lines(lines[..i])
    {
      assert lines[..i + 1][..i] == lines[..i];
      escaped := EscapeText(lines[i]);
      Assoc(top, Lines(lines[..i]), NEXT_LINE + TextLine(lines[i]));
      stream := stream + (NEXT_LINE + ("(" + escaped + ") Tj\n"));
    }
    assert lines[..|lines|] == lines;
    stream := stream + CLOSING;
  }

  /** What a page shows: the texts of the literal strings in its content, in order. */
  function ReadTexts(content: string): seq<string>
    decreases |content|
  {
    if content == "" then []
    else if content[0] != '(' then ReadTexts(content[1..])
    else
      match ReadBody(content[1..], 0)
      case None => []
      case Some((text, rest)) => [text] + ReadTexts(rest)
  }

  function ShownLines(lines: seq<string>): seq<string> {
    seq(|lines|, i requires 0 <= i < |lines| => ShownText(lines[i]))
  }

  predicate NoText(s: string) {
    forall i :: 0 <= i < |s| ==> s[i] != '('
  }

  lemma {:induction false} NoTextSkipped(operators: string, rest: string)
    requires NoText(operators)
    ensures ReadTexts(operators + rest) == ReadTexts(rest)
  {
    if operators == "" {
      assert operators + rest == rest;
    } else {
      assert (operators + rest)[1..] == operators[1..] + rest;
      NoTextSkipped(operators[1..], rest);
    }
  }

  lemma {:induction false} LineReadsBack(operators: string, text: string, rest: string)
    requires NoText(operators)
    ensures ReadTexts(operators + TextLine(text) + rest) == [ShownText(text)] + ReadTexts(rest)
  {
    var literal := "(" + Escape(text) + ")" + (" Tj\n" + rest);
    assert operators + TextLine(text) + rest == operators + literal;
    NoTextSkipped(operators, literal);
    LiteralReadsBack(text, " Tj\n" + rest);
    NoTextSkipped(" Tj\n", rest);
  }

  lemma {:induction false} LinesReadBack(lines: seq<string>, rest: string)
    ensures ReadTexts(Lines(lines) + rest) == ShownLines(lines) + ReadTexts(rest)
  {
    if lines == [] {
      assert Lines(lines) + rest == rest;
    } else {
      var n := |lines| - 1;
      assert Lines(lines) + rest == Lines(lines[..n]) + (NEXT_LINE + TextLine(lines[n]) + rest);
      LinesReadBack(lines[..n], NEXT_LINE + TextLine(lines[n]) + rest);
      LineReadsBack(NEXT_LINE, lines[n], rest);
      assert ShownLines(lines) == ShownLines(lines[..n]) + [ShownText(lines[n])];
    }
  }

  lemma {:induction false} Regrouped(a: string, b: string, c: string, d: string)
    ensures a + b + c + d == a + (b + (c + d))
  {
  }

  /** The page shows the title and then every line, whatever characters they hold, and nothing else. */
  lemma {:induction false} ContentReadsBack(title: string, lines: seq<string>)
    ensures ReadTexts(Content(title, lines)) == [ShownText(title)] + ShownLines(lines)
  {
    Regrouped(OPENING + TextLine(title), BODY_FONT, Lines(lines), CLOSING);
    LineReadsBack(OPENING, title, BODY_FONT + (Lines(lines) + CLOSING));
    NoTextSkipped(BODY_FONT, Lines(lines) + CLOSING);
    LinesReadBack(lines, CLOSING);
    NoTextSkipped(CLOSING, "");
    assert CLOSING + "" == CLOSING;
  }

  // ----- The file (ISO 32000-1, section 7.5.4) -----

  /** `t` stands in `s` at offset `k`. */
  predicate At(s: string, k: nat, t: string) {
    k + |t| <= |s| && s[k..k + |t|] == t
  }

  lemma {:induction false} AtGrows(s: string, k: nat, t: string, more: string)
    requires At(s, k, t)
    ensures At(s + more, k, t)
  {
    assert (s + more)[k..k + |t|] == s[k..k + |t|];
  }

  lemma {:induction false} AtEnd(s: string, t: string, more: string)
    ensures At(s + (t + more), |s|, t)
  {
    assert (s + (t + more))[|s|..|s| + |t|] == t;
  }

  function ObjectHeader(i: nat): string {
    Decimal(i) + " 0 obj\n"
  }

  const HEADER := "%PDF-1.4\n"
  const CATALOG := "<< /Type /Catalog /Pages 2 0 R >>\nendobj\n"
  const PAGES := "<< /Type /Pages /Kids [3 0 R] /Count 1 >>\nendobj\n"
  const PAGE :=
    "<< /Type /Page /Parent 2 0 R /MediaBox [0 0 612 792] /Contents 4 0 R " +
    "/Resources << /Font << /F1 5 0 R >> >> >>\nendobj\n"
  const FONT := "<< /Type /Font /Subtype /Type1 /BaseFont /Helvetica >>\nendobj\n"
  const XREF_HEAD := "xref\n0 6\n"
  const FREE_ENTRY := "0000000000 65535 f \n"
  const TRAILER := "trailer\n<< /Size 6 /Root 1 0 R >>\n"

  function StreamObject(stream: string): string {
    "<< /Length " + Decimal(|stream|) + " >>\nstream\n" + stream + "\nendstream\nendobj\n"
  }

  /** `%010d 00000 n ` and a line end. */
  function Entry(offset: nat): string {
    (if offset < Power10(10) then Digits(offset, 10) else Decimal(offset)) + " 00000 n \n"
  }

  /** Twenty bytes that name the offset, as long as ten digits hold it. */
  lemma {:induction false} EntryNames(offset: nat)
    ensures offset < Power10(10) <==> |Entry(offset)| == 20
    ensures offset < Power10(10) ==> AllDigits(Entry(offset)[..10]) && Number(Entry(offset)[..10]) == offset
  {
    if offset < Power10(10) {
      DigitsReadBack(offset, 10);
      assert Entry(offset)[..10] == Digits(offset, 10);
    } else {
      LongDecimal(offset, 10);
    }
  }

  lemma {:induction false} LongDecimal(n: nat, width: nat)
    requires n >= Power10(width)
    ensures |Decimal(n)| > width
  {
    if width > 0 {
      LongDecimal(n / 10, width - 1);
    }
  }

  /** The objects written so far, each with its number, are where the offsets say, behind the header. */
  ghost predicate Recorded(buf: string, offsets: seq<nat>, bodies: seq<string>) {
    && At(buf, 0, HEADER) && |bodies| < |offsets|
    && (forall i :: 1 <= i <= |bodies| ==> At(buf, offsets[i], ObjectHeader(i) + bodies[i - 1]))
  }

  lemma {:induction false} RecordedGrows(buf: string, offsets: seq<nat>, bodies: seq<string>, more: string)
    requires Recorded(buf, offsets, bodies)
    ensures Recorded(buf + more, offsets, bodies)
  {
    AtGrows(buf, 0, HEADER, more);
    forall i | 1 <= i <= |bodies| ensures At(buf + more, offsets[i], ObjectHeader(i) + bodies[i - 1]) {
      AtGrows(buf, offsets[i], ObjectHeader(i) + bodies[i - 1], more);
    }
  }

  /** Records where object `i` begins and writes it. */
  method WriteObject(buf: string, offsets: seq<nat>, i: nat, body: string, ghost bodies: seq<string>)
    returns (buf': string, offsets': seq<nat>)
    requires i == |bodies| + 1 < |offsets| && Recorded(buf, offsets, bodies)
    ensures |offsets'| == |offsets| && Recorded(buf', offsets', bodies + [body])
  {
    offsets' := offsets[i := |buf|];
    buf' := buf + (ObjectHeader(i) + body);
    RecordedGrows(buf, offsets, bodies, ObjectHeader(i) + body);
    AtEnd(buf, ObjectHeader(i) + body, "");
    assert ObjectHeader(i) + body + "" == ObjectHeader(i) + body;
  }

  method WriteObjects(stream: string) returns (buf: string, offsets: seq<nat>)
    ensures |offsets| == 6 && Recorded(buf, offsets, [CATALOG, PAGES, PAGE, StreamObject(stream), FONT])
  {
    buf := HEADER;
    offsets := [0, 0, 0, 0, 0, 0];
    buf, offsets := WriteObject(buf, offsets, 1, CATALOG, []);
    buf, offsets := WriteObject(buf, offsets, 2, PAGES, [CATALOG]);
    buf, offsets := WriteObject(buf, offsets, 3, PAGE, [CATALOG, PAGES]);
    buf, offsets := WriteObject(buf, offsets, 4, StreamObject(stream), [CATALOG, PAGES, PAGE]);
    buf, offsets := WriteObject(buf, offsets, 5, FONT, [CATALOG, PAGES, PAGE, StreamObject(stream)]);
  }

  function Entries(offsets: seq<nat>, n: nat): string
    requires n < |offsets|
  {
    if n == 0 then FREE_ENTRY else Entries(offsets, n - 1) + Entry(offsets[n])
  }

  ghost predicate Fits(offsets: seq<nat>) {
    forall i :: 0 <= i < |offsets| ==> offsets[i] < Power10(10)
  }

  lemma {:induction false} EntriesWide(offsets: seq<nat>, n: nat)
    requires n < |offsets| && Fits(offsets)
    ensures |Entries(offsets, n)| == 20 * (n + 1)
    ensures forall i :: 1 <= i <= n ==> At(Entries(offsets, n), 20 * i, Entry(offsets[i]))
  {
    if n > 0 {
      EntriesWide(offsets, n - 1);
      EntryNames(offsets[n]);
      AtEnd(Entries(offsets, n - 1), Entry(offsets[n]), "");
      assert Entry(offsets[n]) + "" == Entry(offsets[n]);
      forall i | 1 <= i < n ensures At(Entries(offsets, n), 20 * i, Entry(offsets[i])) {
        AtGrows(Entries(offsets, n - 1), 20 * i, Entry(offsets[i]), Entry(offsets[n]));
      }
    }
  }

  // ----- What a reader of the file finds -----

  /** Twenty bytes at `k` whose first ten digits are the offset. */
  predicate NamesOffset(pdf: string, k: nat, offset: nat) {
    && k + 20 <= |pdf| && AllDigits(pdf[k..k + 10]) && Number(pdf[k..k + 10]) == offset
    && pdf[k + 10..k + 20] == " 00000 n \n"
  }

  /** The entries of the table at `k`, the free one first, name the offsets. */
  ghost predicate TableNames(pdf: string, k: nat, offsets: seq<nat>)
    requires |offsets| == 6
  {
    Fits(offsets) ==> forall i :: 1 <= i <= 5 ==> NamesOffset(pdf, k + 20 * i, offsets[i])
  }

  predicate IsStream(pdf: string, k: nat, digits: string, stream: string) {
    && AllDigits(digits) && Number(digits) == |stream|
    && At(pdf, k, ObjectHeader(4) + ("<< /Length " + digits + " >>\nstream\n" + stream + "\nendstream\nendobj\n"))
  }

  /** Object four at `k` holds the stream under its true length. */
  ghost predicate StreamAt(pdf: string, k: nat, stream: string) {
    exists digits: string :: IsStream(pdf, k, digits, stream)
  }

  predicate IsEnding(pdf: string, front: string, digits: string, xref: nat) {
    AllDigits(digits) && Number(digits) == xref && pdf == front + (TRAILER + ("startxref\n" + digits + "\n%%EOF\n"))
  }

  /** The number before the end marker is `xref`. */
  ghost predicate EndNames(pdf: string, xref: nat) {
    exists front: string, digits: string :: IsEnding(pdf, front, digits, xref)
  }

  /** Every object is where its offset says, and the stream is as long as it claims. */
  ghost predicate HasObjects(pdf: string, offsets: seq<nat>, stream: string) {
    && |offsets| == 6 && Recorded(pdf, offsets, [CATALOG, PAGES, PAGE, StreamObject(stream), FONT])
    && StreamAt(pdf, offsets[4], stream)
  }

  /** Every entry of the table is twenty bytes at its place that read back as its offset, and the number
      before the end marker reads back as the place where the table begins. */
  ghost predicate HasTable(pdf: string, offsets: seq<nat>, xref: nat) {
    && |offsets| == 6 && At(pdf, xref, XREF_HEAD) && TableNames(pdf, xref + |XREF_HEAD|, offsets)
    && EndNames(pdf, xref)
  }

  /** seedPDFBytes: a well-formed file whose page shows the title and the lines. */
  method SeedPdf(title: string, lines: seq<string>) returns (pdf: string, offsets: seq<nat>, xref: nat)
    ensures exists stream ::
      && HasObjects(pdf, offsets, stream) && HasTable(pdf, offsets, xref)
      && ReadTexts(stream) == [ShownText(title)] + ShownLines(lines)
  {
    var stream := WriteContent(title, lines);
    pdf, offsets := WriteObjects(stream);
    xref := |pdf|;
    var table := WriteTable(offsets);
    ObjectsKept(pdf, offsets, stream, table + (TRAILER + Ending(|pdf|)));
    TableKept(pdf, offsets, table);
    ContentReadsBack(title, lines);
    pdf := Sealed(pdf, table);
  }

  method WriteTable(offsets: seq<nat>) returns (table: string)
    requires |offsets| == 6
    ensures table == XREF_HEAD + Entries(offsets, 5)
  {
    table := XREF_HEAD + FREE_ENTRY;
    for i := 1 to 6
      invariant table == XREF_HEAD + Entries(offsets, i - 1)
    {
      Assoc(XREF_HEAD, Entries(offsets, i - 1), Entry(offsets[i]));
      table := table + Entry(offsets[i]);
    }
  }

  function Ending(xref: nat): string {
    "startxref\n" + Decimal(xref) + "\n%%EOF\n"
  }

  function Sealed(buf: string, table: string): string {
    buf + (table + (TRAILER + Ending(|buf|)))
  }

  lemma {:induction false} TableKept(buf: string, offsets: seq<nat>, table: string)
    requires |offsets| == 6 && table == XREF_HEAD + Entries(offsets, 5)
    ensures HasTable(Sealed(buf, table), offsets, |buf|)
  {
    TablePlaced(buf, XREF_HEAD, offsets, TRAILER + Ending(|buf|));
    TableReadsBack(Sealed(buf, table), |buf| + |XREF_HEAD|, offsets);
    EndReadsBack(buf, table, |buf|);
  }

  lemma {:induction false} StreamReadsBack(pdf: string, k: nat, stream: string)
    requires At(pdf, k, ObjectHeader(4) + StreamObject(stream))
    ensures StreamAt(pdf, k, stream)
  {
    DecimalReadsBack(|stream|);
    assert IsStream(pdf, k, Decimal(|stream|), stream);
  }

  lemma {:induction false} ObjectsKept(buf: string, offsets: seq<nat>, stream: string, more: string)
    requires |offsets| == 6 && Recorded(buf, offsets, [CATALOG, PAGES, PAGE, StreamObject(stream), FONT])
    ensures HasObjects(buf + more, offsets, stream)
  {
    var bodies := [CATALOG, PAGES, PAGE, StreamObject(stream), FONT];
    RecordedGrows(buf, offsets, bodies, more);
    assert At(buf + more, offsets[4], ObjectHeader(4) + bodies[4 - 1]);
    StreamReadsBack(buf + more, offsets[4], stream);
  }

  lemma {:induction false} EntryReadsBack(pdf: string, k: nat, offset: nat)
    requires offset < Power10(10) && At(pdf, k, Entry(offset))
    ensures NamesOffset(pdf, k, offset)
  {
    EntryNames(offset);
    var entry := Entry(offset);
    assert pdf[k..k + 20] == entry;
    assert pdf[k..k + 10] == entry[..10];
    assert pdf[k + 10..k + 20] == entry[10..];
  }

  lemma {:induction false} EndReadsBack(before: string, table: string, xref: nat)
    ensures EndNames(before + (table + (TRAILER + Ending(xref))), xref)
  {
    DecimalReadsBack(xref);
    Tailed(before, table, Ending(xref));
    assert IsEnding(before + (table + (TRAILER + Ending(xref))), before + table, Decimal(xref), xref);
  }

  lemma {:induction false} Tailed(before: string, table: string, last: string)
    ensures before + (table + (TRAILER + last)) == (before + table) + (TRAILER + last)
  {
  }

  ghost predicate EntriesAt(pdf: string, k: nat, offsets: seq<nat>)
    requires |offsets| == 6
  {
    Fits(offsets) ==> forall i :: 1 <= i <= 5 ==> At(pdf, k + 20 * i, Entry(offsets[i]))
  }

  lemma {:induction false} TablePlaced(buf: string, head: string, offsets: seq<nat>, tail: string)
    requires |offsets| == 6
    ensures var pdf := buf + (head + Entries(offsets, 5) + tail);
      At(pdf, |buf|, head) && EntriesAt(pdf, |buf| + |head|, offsets)
  {
    var entries := Entries(offsets, 5);
    HeadPlaced(buf, head, entries, tail);
    if Fits(offsets) {
      EntriesWide(offsets, 5);
      forall i | 1 <= i <= 5 ensures At(buf + (head + entries + tail), |buf| + |head| + 20 * i, Entry(offsets[i])) {
        EntryPlaced(buf, head, entries, tail, 20 * i, Entry(offsets[i]));
      }
    }
  }

  lemma {:induction false} TableReadsBack(pdf: string, k: nat, offsets: seq<nat>)
    requires |offsets| == 6 && EntriesAt(pdf, k, offsets)
    ensures TableNames(pdf, k, offsets)
  {
    if Fits(offsets) {
      forall i | 1 <= i <= 5 ensures NamesOffset(pdf, k + 20 * i, offsets[i]) {
        EntryReadsBack(pdf, k + 20 * i, offsets[i]);
      }
    }
  }

  lemma {:induction false} HeadPlaced(buf: string, head: string, entries: string, tail: string)
    ensures At(buf + (head + entries + tail), |buf|, head)
  {
    Assoc(head, entries, tail);
    AtEnd(buf, head, entries + tail);
  }

  lemma {:induction false} EntryPlaced(buf: string, head: string, entries: string, tail: string, k: nat, t: string)
    requires At(entries, k, t)
    ensures At(buf + (head + entries + tail), |buf| + |head| + k, t)
  {
    Assoc(head, entries, tail);
    Assoc(buf, head, entries + tail);
    Shifted(buf + head, entries, tail, k, t);
  }

  lemma {:induction false} Shifted(front: string, middle: string, tail: string, k: nat, t: string)
    requires At(middle, k, t)
    ensures At(front + (middle + tail), |front| + k, t)
  {
    assert (front + (middle + tail))[|front| + k..|front| + k + |t|] == middle[k..k + |t|];
  }
}
