// A whole PDF file: numbered objects, the cross-reference table and trailer of
// section 7.5 of ISO 32000-1, and a reader that follows them back.

module PdfFile {
  import opened Common
  import Decimal
  import opened PdfContent

  const MAX_LINES_PER_PAGE: nat := 60
  const ENTRY_SIZE: nat := 20

  // The fixed texts of a file: keywords a reader looks for, and the parts of
  // dictionaries it passes over.
  datatype Syntax = Syntax(
    header: string, objectTail: string, endObject: string,
    lengthHead: string, streamHead: string, endStream: string,
    xrefHead: string, freeEntry: string, entryTail: string,
    sizeHead: string, sizeTail: string, startXref: string, eof: string,
    catalog: string, pagesHead: string, pagesTail: string, font: string, pageHead: string)

  const PDF: Syntax := Syntax(
    "%PDF-1.4\n", " 0 obj\n", "\nendobj\n",
    "<< /Length ", " >>\nstream\n", "\nendstream",
    "xref\n0 ", "0000000000 65535 f \n", " 00000 n \n",
    "trailer\n<< /Size ", " /Root 1 0 R >>\n", "startxref\n", "\n%%EOF",
    "<< /Type /Catalog /Pages 2 0 R >>", "<< /Type /Pages /Kids [", "] /Count ",
    "<< /Type /Font /Subtype /Type1 /BaseFont /Helvetica >>",
    "<< /Type /Page /Parent 2 0 R /MediaBox [0 0 612 792] /Resources << /Font << /F1 3 0 R >> >> /Contents ")

  predicate StartsPlain(s: string) {
    s != "" && !Decimal.IsDigit(s[0])
  }

  // All a reader needs of them: entries are 20 bytes, numbers end where they end.
  predicate Sound(x: Syntax) {
    && |x.freeEntry| == ENTRY_SIZE && |x.entryTail| == 10
    && StartsPlain(x.streamHead) && StartsPlain(x.eof)
    && x.startXref != "" && !Decimal.IsDigit(x.startXref[|x.startXref| - 1])
  }

  lemma PdfIsSound()
    ensures Sound(PDF)
  {
  }

  // -- Objects ------------------------------------------------------------------

  function Kids(n: nat): string {
    if n == 0 then ""
    else Kids(n - 1) + (if n == 1 then "" else " ") + Decimal.Render(4 + 2 * (n - 1)) + " 0 R"
  }

  function StreamObject(x: Syntax, stream: string): string {
    x.lengthHead + (Decimal.Render(|stream|) + (x.streamHead + (stream + x.endStream)))
  }

  function PageObject(x: Syntax, i: nat): string {
    x.pageHead + Decimal.Render(5 + 2 * i) + " 0 R >>"
  }

  function PagesObject(x: Syntax, n: nat): string {
    x.pagesHead + Kids(n) + x.pagesTail + Decimal.Render(n) + " >>"
  }

  // The catalog, the page tree and the font, then a page and its content for each
  // of the first n texts.
  function ObjectsTo(x: Syntax, pages: seq<string>, n: nat): (objects: seq<string>)
    requires n <= |pages|
    ensures |objects| == 3 + 2 * n
  {
    if n == 0 then [x.catalog, PagesObject(x, |pages|), x.font]
    else ObjectsTo(x, pages, n - 1) + [PageObject(x, n - 1), StreamObject(x, ContentStream(pages[n - 1]))]
  }

  function Objects(x: Syntax, pages: seq<string>): (objects: seq<string>)
    ensures |objects| == 3 + 2 * |pages|
  {
    ObjectsTo(x, pages, |pages|)
  }

  // -- The file -----------------------------------------------------------------

  function Numbered(x: Syntax, k: nat, body: string): string {
    (Decimal.Render(k) + x.objectTail) + (body + x.endObject)
  }

  // The file up to and including object n.
  function Body(x: Syntax, objects: seq<string>, n: nat): string
    requires n <= |objects|
  {
    if n == 0 then x.header else Body(x, objects, n - 1) + Numbered(x, n, objects[n - 1])
  }

  function OffsetOf(x: Syntax, objects: seq<string>, k: nat): nat
    requires 0 < k <= |objects|
  {
    |Body(x, objects, k - 1)|
  }

  function Entry(x: Syntax, offset: nat): string {
    Decimal.Padded(offset, 10) + x.entryTail
  }

  function Entries(x: Syntax, objects: seq<string>, n: nat): string
    requires n <= |objects|
  {
    if n == 0 then x.freeEntry else Entries(x, objects, n - 1) + Entry(x, OffsetOf(x, objects, n))
  }

  function TableHeader(x: Syntax, n: nat): string {
    x.xrefHead + (Decimal.Render(n + 1) + "\n")
  }

  function Size(x: Syntax, n: nat): string {
    x.sizeHead + Decimal.Render(n + 1) + x.sizeTail
  }

  function Ending(x: Syntax, start: nat): string {
    x.startXref + (Decimal.Render(start) + x.eof)
  }

  function File(x: Syntax, objects: seq<string>): string {
    var n, body := |objects|, Body(x, objects, |objects|);
    body + (TableHeader(x, n) + (Entries(x, objects, n) + (Size(x, n) + Ending(x, |body|))))
  }

  method ListObjects(x: Syntax, pages: seq<string>) returns (objects: seq<string>)
    ensures objects == Objects(x, pages)
  {
    objects := [x.catalog, PagesObject(x, |pages|), x.font];
    for i := 0 to |pages|
      invariant objects == ObjectsTo(x, pages, i)
    {
      objects := objects + [PageObject(x, i), StreamObject(x, ContentStream(pages[i]))];
    }
  }

  // The buffer and the offsets grow object by object; the table follows from the
  // recorded offsets.
  method Assemble(x: Syntax, objects: seq<string>) returns (buf: string)
    ensures buf == File(x, objects)
  {
    buf := x.header;
    var offsets: seq<nat> := [];
    for idx := 0 to |objects|
      invariant buf == Body(x, objects, idx) && |offsets| == idx
      invariant forall k :: 0 <= k < idx ==> offsets[k] == OffsetOf(x, objects, k + 1)
    {
      offsets := offsets + [|buf|];
      buf := buf + Numbered(x, idx + 1, objects[idx]);
    }
    var start := |buf|;
    var table := x.freeEntry;
    for k := 0 to |offsets|
      invariant table == Entries(x, objects, k)
    {
      table := table + Entry(x, offsets[k]);
    }
    buf := buf + (TableHeader(x, |objects|) + (table + (Size(x, |objects|) + Ending(x, start))));
  }

  // -- Reading ------------------------------------------------------------------

  // The text t stands at position i of s.
  predicate Has(s: string, i: nat, t: string)
    decreases |t|
  {
    if t == "" then i <= |s| else i < |s| && s[i] == t[0] && Has(s, i + 1, t[1..])
  }

  function DigitsEnd(s: string, i: nat): (e: nat)
    requires i <= |s|
    ensures i <= e <= |s| && Decimal.AllDigits(s[i..e])
    decreases |s| - i
  {
    if i == |s| || !Decimal.IsDigit(s[i]) then i
    else
      var e := DigitsEnd(s, i + 1);
      assert s[i..e] == [s[i]] + s[i + 1..e];
      e
  }

  function DigitsStart(s: string, e: nat): (b: nat)
    requires e <= |s|
    ensures b <= e && Decimal.AllDigits(s[b..e])
  {
    if e == 0 || !Decimal.IsDigit(s[e - 1]) then e
    else
      var b := DigitsStart(s, e - 1);
      assert s[b..e] == s[b..e - 1] + [s[e - 1]];
      b
  }

  // Section 7.5.5: the last lines are startxref, an offset and the end marker.
  function StartXref(x: Syntax, file: string): Option<nat> {
    if |file| < |x.eof| || !Has(file, |file| - |x.eof|, x.eof) then None
    else
      var e := |file| - |x.eof|;
      var b := DigitsStart(file, e);
      if b < e && b >= |x.startXref| && Has(file, b - |x.startXref|, x.startXref)
      then Some(Decimal.Value(file[b..e])) else None
  }

  // Section 7.5.4: the table begins with xref and its one subsection's header;
  // entry k is the k-th run of 20 bytes after that.
  function EntriesStart(x: Syntax, file: string): Option<nat> {
    var p := StartXref(x, file);
    if p.None? || !Has(file, p.value, x.xrefHead) || p.value + |x.xrefHead| > |file| then None
    else
      var e := DigitsEnd(file, p.value + |x.xrefHead|);
      if Has(file, e, "\n") then Some(e + 1) else None
  }

  // The offset in entry k of a table at t.
  function EntryOffset(x: Syntax, file: string, p: nat): Option<nat> {
    if p + ENTRY_SIZE <= |file| && Decimal.AllDigits(file[p..p + 10]) && Has(file, p + 10, x.entryTail)
    then Some(Decimal.Value(file[p..p + 10])) else None
  }

  // Where object k's body begins: its entry leads to "k 0 obj".
  function ObjectStartIn(x: Syntax, file: string, t: nat, k: nat): Option<nat> {
    var offset, number := EntryOffset(x, file, t + ENTRY_SIZE * k), Decimal.Render(k) + x.objectTail;
    if offset.Some? && Has(file, offset.value, number) then Some(offset.value + |number|) else None
  }

  function ObjectStart(x: Syntax, file: string, k: nat): Option<nat> {
    var t := EntriesStart(x, file);
    if t.None? then None else ObjectStartIn(x, file, t.value, k)
  }

  // Section 7.3.8: a stream is as long as its dictionary's Length says.
  function StreamBody(x: Syntax, file: string, e: nat, length: nat): Option<string> {
    var start := e + |x.streamHead|;
    if Has(file, e, x.streamHead) && Has(file, start + length, x.endStream) && start + length <= |file|
    then Some(file[start..start + length]) else None
  }

  function StreamAt(x: Syntax, file: string, i: nat): Option<string> {
    var b := i + |x.lengthHead|;
    if !Has(file, i, x.lengthHead) || b > |file| then None
    else StreamBody(x, file, DigitsEnd(file, b), Decimal.Value(file[b..DigitsEnd(file, b)]))
  }

  // The strings shown on page i.
  function ReadPage(x: Syntax, file: string, i: nat): Option<seq<string>> {
    var start := ObjectStart(x, file, 5 + 2 * i);
    if start.None? then None
    else
      var stream := StreamAt(x, file, start.value);
      if stream.None? then None else Some(Shown(stream.value))
  }
}
