// Reading back what the writer wrote.

module PdfRoundTrip {
  import opened Common
  import Decimal
  import opened TextLines
  import opened PdfContent
  import opened PdfFile

  // -- Finding parts ----------------------------------------------------------------

  lemma {:induction false} HasIsSlice(s: string, i: nat, t: string)
    requires Has(s, i, t)
    ensures i + |t| <= |s| && s[i..i + |t|] == t
    decreases |t|
  {
    if t != "" {
      HasIsSlice(s, i + 1, t[1..]);
      assert s[i..i + |t|] == [s[i]] + s[i + 1..i + 1 + |t[1..]|];
      assert t == [t[0]] + t[1..];
    }
  }

  lemma {:induction false} SliceIsHas(s: string, i: nat, t: string)
    requires i + |t| <= |s| && s[i..i + |t|] == t
    ensures Has(s, i, t)
    decreases |t|
  {
    if t != "" {
      assert s[i..i + |t|][0] == s[i] && s[i + 1..i + 1 + |t[1..]|] == s[i..i + |t|][1..];
      SliceIsHas(s, i + 1, t[1..]);
    }
  }

  lemma HasMiddle(a: string, s: string, b: string)
    ensures Has(a + (s + b), |a|, s)
  {
    assert (a + (s + b))[|a|..|a| + |s|] == s;
    SliceIsHas(a + (s + b), |a|, s);
  }

  lemma HasLater(a: string, b: string, i: nat, t: string)
    requires Has(b, i, t)
    ensures Has(a + b, |a| + i, t)
  {
    HasIsSlice(b, i, t);
    assert (a + b)[|a| + i..|a| + i + |t|] == b[i..i + |t|];
    SliceIsHas(a + b, |a| + i, t);
  }

  lemma HasEarlier(a: string, b: string, i: nat, t: string)
    requires Has(a, i, t)
    ensures Has(a + b, i, t)
  {
    HasIsSlice(a, i, t);
    assert (a + b)[i..i + |t|] == a[i..i + |t|];
    SliceIsHas(a + b, i, t);
  }

  lemma SliceOfSlice(s: string, i: nat, n: nat, j: nat, m: nat)
    requires i + n <= |s| && j + m <= n
    ensures s[i..i + n][j..j + m] == s[i + j..i + j + m]
  {
    var a, b := s[i..i + n][j..j + m], s[i + j..i + j + m];
    assert |a| == |b| && forall k :: 0 <= k < m ==> a[k] == b[k];
  }

  lemma HasInner(s: string, i: nat, t: string, j: nat, u: string)
    requires Has(s, i, t) && Has(t, j, u)
    ensures Has(s, i + j, u)
  {
    HasIsSlice(s, i, t);
    HasIsSlice(t, j, u);
    SliceOfSlice(s, i, |t|, j, |u|);
    SliceIsHas(s, i + j, u);
  }

  lemma HasFirst(a: string, b: string)
    ensures Has(a + b, 0, a) && Has(a + b, |a|, b)
  {
    HasMiddle("", a, b);
    assert "" + (a + b) == a + b;
    HasMiddle(a, b, "");
    assert b + "" == b;
  }

  lemma HasBoth(s: string, i: nat, a: string, b: string)
    requires Has(s, i, a + b)
    ensures Has(s, i, a) && Has(s, i + |a|, b)
  {
    HasFirst(a, b);
    HasInner(s, i, a + b, 0, a);
    HasInner(s, i, a + b, |a|, b);
  }

  lemma {:induction false} DigitsEndAt(s: string, i: nat, e: nat)
    requires i <= e <= |s| && (forall j :: i <= j < e ==> Decimal.IsDigit(s[j]))
    requires e < |s| ==> !Decimal.IsDigit(s[e])
    ensures DigitsEnd(s, i) == e
    decreases e - i
  {
    if i < e {
      DigitsEndAt(s, i + 1, e);
    }
  }

  lemma {:induction false} DigitsStartAt(s: string, b: nat, e: nat)
    requires b <= e <= |s| && (forall j :: b <= j < e ==> Decimal.IsDigit(s[j]))
    requires b > 0 ==> !Decimal.IsDigit(s[b - 1])
    ensures DigitsStart(s, e) == b
    decreases e - b
  {
    if b < e {
      DigitsStartAt(s, b, e - 1);
    }
  }

  // A number written and followed by something else reads as itself.
  lemma NumberReads(s: string, i: nat, n: nat, next: string)
    requires Has(s, i, Decimal.Render(n) + next) && next != "" && !Decimal.IsDigit(next[0])
    ensures var e := i + |Decimal.Render(n)|;
            e <= |s| && DigitsEnd(s, i) == e && Decimal.AllDigits(s[i..e]) && Decimal.Value(s[i..e]) == n && Has(s, e, next)
  {
    var digits := Decimal.Render(n);
    var e := i + |digits|;
    HasBoth(s, i, digits, next);
    DigitsAre(s, i, digits);
    DigitsEndAt(s, i, e);
    Decimal.RenderThenValue(n);
  }

  lemma DigitsAre(s: string, i: nat, digits: string)
    requires Has(s, i, digits) && Decimal.AllDigits(digits)
    ensures i + |digits| <= |s| && s[i..i + |digits|] == digits
    ensures forall j :: i <= j < i + |digits| ==> Decimal.IsDigit(s[j])
  {
    HasIsSlice(s, i, digits);
    forall j | i <= j < i + |digits| ensures Decimal.IsDigit(s[j]) {
      assert s[i..i + |digits|][j - i] == s[j];
    }
  }

  // -- The trailer ------------------------------------------------------------------

  lemma PartsAt(before: string, a: string, b: string, c: string)
    ensures var s := before + (a + (b + c));
            Has(s, |before|, a) && Has(s, |before| + |a|, b) && Has(s, |before| + |a| + |b|, c)
  {
    var s := before + (a + (b + c));
    HasFirst(a, b + c);
    HasFirst(b, c);
    HasLater(a, b + c, 0, b);
    HasLater(a, b + c, |b|, c);
    HasLater(before, a + (b + c), 0, a);
    HasLater(before, a + (b + c), |a|, b);
    HasLater(before, a + (b + c), |a| + |b|, c);
  }

  lemma NumberReadsBack(s: string, b: nat, n: nat)
    requires 0 < b && Has(s, b, Decimal.Render(n)) && b <= |s| && !Decimal.IsDigit(s[b - 1])
    ensures var e := b + |Decimal.Render(n)|;
            e <= |s| && DigitsStart(s, e) == b && Decimal.AllDigits(s[b..e]) && Decimal.Value(s[b..e]) == n
  {
    DigitsAre(s, b, Decimal.Render(n));
    DigitsStartAt(s, b, b + |Decimal.Render(n)|);
    Decimal.RenderThenValue(n);
  }

  lemma StartXrefReads(x: Syntax, file: string, p: nat, start: nat)
    requires Sound(x) && Has(file, p, x.startXref) && Has(file, p + |x.startXref|, Decimal.Render(start))
    requires Has(file, p + |x.startXref| + |Decimal.Render(start)|, x.eof)
    requires |file| == p + |x.startXref| + |Decimal.Render(start)| + |x.eof|
    ensures StartXref(x, file) == Some(start)
  {
    var b := p + |x.startXref|;
    HasIsSlice(file, p, x.startXref);
    assert file[p..b][|x.startXref| - 1] == file[b - 1];
    NumberReadsBack(file, b, start);
  }

  lemma Regroup(a: string, b: string, c: string, d: string, e: string)
    ensures a + (b + (c + (d + e))) == (a + (b + c + d)) + e
  {
  }

  // A file of these parts: startxref leads past the objects.
  lemma TrailerReads(x: Syntax, body: string, header: string, entries: string, size: string, file: string)
    requires Sound(x) && file == body + (header + (entries + (size + Ending(x, |body|))))
    ensures StartXref(x, file) == Some(|body|)
  {
    Regroup(body, header, entries, size, Ending(x, |body|));
    var before := body + (header + entries + size);
    PartsAt(before, x.startXref, Decimal.Render(|body|), x.eof);
    StartXrefReads(x, file, |before|, |body|);
  }

  // -- The table --------------------------------------------------------------------

  lemma EntriesStartIs(x: Syntax, file: string, p: nat, e: nat)
    requires StartXref(x, file) == Some(p) && Has(file, p, x.xrefHead) && p + |x.xrefHead| <= e <= |file|
    requires DigitsEnd(file, p + |x.xrefHead|) == e && Has(file, e, "\n")
    ensures EntriesStart(x, file) == Some(e + 1)
  {
  }

  lemma TableHeaderReads(x: Syntax, file: string, p: nat, n: nat)
    requires StartXref(x, file) == Some(p) && Has(file, p, TableHeader(x, n))
    ensures EntriesStart(x, file) == Some(p + |TableHeader(x, n)|)
  {
    var count := Decimal.Render(n + 1) + "\n";
    HasBoth(file, p, x.xrefHead, count);
    NumberReads(file, p + |x.xrefHead|, n + 1, "\n");
    EntriesStartIs(x, file, p, p + |x.xrefHead| + |Decimal.Render(n + 1)|);
  }

  lemma {:induction false} OffsetsGrow(x: Syntax, objects: seq<string>, k: nat, n: nat)
    requires k <= n <= |objects|
    ensures |Body(x, objects, k)| <= |Body(x, objects, n)|
  {
    if k < n {
      OffsetsGrow(x, objects, k, n - 1);
    }
  }

  // Every entry is 20 bytes, and entry k holds object k's offset.
  lemma {:induction false} EntriesHave(x: Syntax, objects: seq<string>, k: nat, n: nat)
    requires Sound(x) && k <= n <= |objects| && |Body(x, objects, |objects|)| < Decimal.Pow10(10)
    ensures |Entries(x, objects, n)| == ENTRY_SIZE * (n + 1)
    ensures k > 0 ==> Has(Entries(x, objects, n), ENTRY_SIZE * k, Entry(x, OffsetOf(x, objects, k)))
    decreases n
  {
    if n > 0 {
      OffsetsGrow(x, objects, n - 1, |objects|);
      Decimal.PaddedThenValue(OffsetOf(x, objects, n), 10);
      var before, entry := Entries(x, objects, n - 1), Entry(x, OffsetOf(x, objects, n));
      if k < n {
        EntriesHave(x, objects, k, n - 1);
        if k > 0 {
          HasEarlier(before, entry, ENTRY_SIZE * k, Entry(x, OffsetOf(x, objects, k)));
        }
      } else {
        EntriesHave(x, objects, n - 1, n - 1);
        HasFirst(before, entry);
      }
    }
  }

  lemma EntryReads(x: Syntax, s: string, p: nat, offset: nat)
    requires Sound(x) && Has(s, p, Entry(x, offset)) && offset < Decimal.Pow10(10)
    ensures EntryOffset(x, s, p) == Some(offset)
  {
    var digits := Decimal.Padded(offset, 10);
    Decimal.PaddedThenValue(offset, 10);
    HasBoth(s, p, digits, x.entryTail);
    HasIsSlice(s, p, digits);
    HasIsSlice(s, p + 10, x.entryTail);
  }

  // -- The objects --------------------------------------------------------------------

  lemma {:induction false} BodyHas(x: Syntax, objects: seq<string>, k: nat, n: nat)
    requires 0 < k <= n <= |objects|
    ensures Has(Body(x, objects, n), OffsetOf(x, objects, k), Numbered(x, k, objects[k - 1]))
    decreases n
  {
    var before, last := Body(x, objects, n - 1), Numbered(x, n, objects[n - 1]);
    if k < n {
      BodyHas(x, objects, k, n - 1);
      HasEarlier(before, last, OffsetOf(x, objects, k), Numbered(x, k, objects[k - 1]));
    } else {
      HasFirst(before, last);
    }
  }

  // -- The layout of a file -------------------------------------------------------------

  // Entry k of the table at t holds the offset of object k, which stands there.
  ghost predicate Leads(x: Syntax, file: string, objects: seq<string>, t: nat, k: nat)
    requires 0 < k <= |objects|
  {
    && OffsetOf(x, objects, k) < Decimal.Pow10(10)
    && Has(file, t + ENTRY_SIZE * k, Entry(x, OffsetOf(x, objects, k)))
    && Has(file, OffsetOf(x, objects, k), Numbered(x, k, objects[k - 1]))
  }

  lemma PartsHold(body: string, header: string, entries: string, trailer: string, p: nat, entry: string, q: nat, numbered: string)
    requires Has(entries, p, entry) && Has(body, q, numbered)
    ensures var file := body + (header + (entries + trailer));
            Has(file, |body| + |header| + p, entry) && Has(file, q, numbered)
  {
    HasEarlier(entries, trailer, p, entry);
    HasLater(header, entries + trailer, p, entry);
    HasLater(body, header + (entries + trailer), |header| + p, entry);
    HasEarlier(body, header + (entries + trailer), q, numbered);
  }

  lemma FileLeads(x: Syntax, objects: seq<string>, k: nat, header: string, trailer: string, file: string, t: nat)
    requires Sound(x) && 0 < k <= |objects| && |Body(x, objects, |objects|)| < Decimal.Pow10(10)
    requires file == Body(x, objects, |objects|) + (header + (Entries(x, objects, |objects|) + trailer))
    requires t == |Body(x, objects, |objects|)| + |header|
    ensures Leads(x, file, objects, t, k)
  {
    EntriesHave(x, objects, k, |objects|);
    BodyHas(x, objects, k, |objects|);
    OffsetsGrow(x, objects, k - 1, |objects|);
    PartsHold(Body(x, objects, |objects|), header, Entries(x, objects, |objects|), trailer, ENTRY_SIZE * k,
              Entry(x, OffsetOf(x, objects, k)), OffsetOf(x, objects, k), Numbered(x, k, objects[k - 1]));
  }

  lemma PartsTable(x: Syntax, n: nat, body: string, entries: string, file: string, t: nat)
    requires Sound(x) && file == body + (TableHeader(x, n) + (entries + (Size(x, n) + Ending(x, |body|))))
    requires t == |body| + |TableHeader(x, n)|
    ensures EntriesStart(x, file) == Some(t)
  {
    TrailerReads(x, body, TableHeader(x, n), entries, Size(x, n), file);
    HasMiddle(body, TableHeader(x, n), entries + (Size(x, n) + Ending(x, |body|)));
    TableHeaderReads(x, file, |body|, n);
  }

  function TableStart(x: Syntax, objects: seq<string>): nat {
    |Body(x, objects, |objects|)| + |TableHeader(x, |objects|)|
  }

  // startxref leads to the table,
  lemma FileTable(x: Syntax, objects: seq<string>)
    requires Sound(x)
    ensures EntriesStart(x, File(x, objects)) == Some(TableStart(x, objects))
  {
    var t, n := TableStart(x, objects), |objects|;
    PartsTable(x, n, Body(x, objects, n), Entries(x, objects, n), File(x, objects), t);
  }

  // and the table to object k.
  lemma FileLeadsTo(x: Syntax, objects: seq<string>, k: nat)
    requires Sound(x) && |File(x, objects)| < Decimal.Pow10(10) && 0 < k <= |objects|
    ensures Leads(x, File(x, objects), objects, TableStart(x, objects), k)
  {
    var n, body, t := |objects|, Body(x, objects, |objects|), TableStart(x, objects);
    FileLeads(x, objects, k, TableHeader(x, n), Size(x, n) + Ending(x, |body|), File(x, objects), t);
  }

  lemma ObjectStartInIs(x: Syntax, file: string, t: nat, k: nat, offset: nat, number: string)
    requires EntryOffset(x, file, t + ENTRY_SIZE * k) == Some(offset)
    requires number == Decimal.Render(k) + x.objectTail && Has(file, offset, number)
    ensures ObjectStartIn(x, file, t, k) == Some(offset + |number|)
  {
  }

  lemma LedTo(x: Syntax, file: string, t: nat, k: nat, offset: nat, text: string) returns (p: nat)
    requires EntryOffset(x, file, t + ENTRY_SIZE * k) == Some(offset) && Has(file, offset, Numbered(x, k, text))
    ensures ObjectStartIn(x, file, t, k) == Some(p) && Has(file, p, text + x.endObject)
  {
    var number := Decimal.Render(k) + x.objectTail;
    HasBoth(file, offset, number, text + x.endObject);
    ObjectStartInIs(x, file, t, k, offset, number);
    p := offset + |number|;
  }

  lemma LedToObject(x: Syntax, file: string, objects: seq<string>, t: nat, k: nat) returns (p: nat)
    requires Sound(x) && 0 < k <= |objects| && Leads(x, file, objects, t, k)
    ensures ObjectStartIn(x, file, t, k) == Some(p) && Has(file, p, objects[k - 1] + x.endObject)
  {
    var offset := OffsetOf(x, objects, k);
    EntryReads(x, file, t + ENTRY_SIZE * k, offset);
    p := LedTo(x, file, t, k, offset, objects[k - 1]);
  }

  // Each entry points at its "k 0 obj", and the object's text follows there.
  lemma ObjectIsFound(x: Syntax, objects: seq<string>, k: nat) returns (p: nat)
    requires Sound(x) && |File(x, objects)| < Decimal.Pow10(10) && 0 < k <= |objects|
    ensures ObjectStart(x, File(x, objects), k) == Some(p) && Has(File(x, objects), p, objects[k - 1] + x.endObject)
  {
    FileTable(x, objects);
    FileLeadsTo(x, objects, k);
    p := LedToObject(x, File(x, objects), objects, TableStart(x, objects), k);
  }

  // -- Streams ------------------------------------------------------------------------

  lemma ThreeParts(file: string, i: nat, a: string, b: string, c: string)
    requires Has(file, i, a + (b + c))
    ensures Has(file, i, a) && Has(file, i + |a|, b) && Has(file, i + |a| + |b|, c)
  {
    HasBoth(file, i, a, b + c);
    HasBoth(file, i + |a|, b, c);
  }

  lemma StreamBodyReads(x: Syntax, file: string, e: nat, stream: string)
    requires Has(file, e, x.streamHead + (stream + x.endStream))
    ensures StreamBody(x, file, e, |stream|) == Some(stream)
  {
    ThreeParts(file, e, x.streamHead, stream, x.endStream);
    HasIsSlice(file, e + |x.streamHead|, stream);
  }

  lemma StreamAtLength(x: Syntax, file: string, i: nat, e: nat, n: nat)
    requires Has(file, i, x.lengthHead) && i + |x.lengthHead| <= e <= |file|
    requires DigitsEnd(file, i + |x.lengthHead|) == e && Decimal.Value(file[i + |x.lengthHead|..e]) == n
    ensures StreamAt(x, file, i) == StreamBody(x, file, e, n)
  {
  }

  // Length is exact: the stream read back is the stream written.
  lemma StreamReads(x: Syntax, file: string, i: nat, stream: string)
    requires Sound(x) && Has(file, i, StreamObject(x, stream))
    ensures StreamAt(x, file, i) == Some(stream)
  {
    var rest := x.streamHead + (stream + x.endStream);
    var digits := Decimal.Render(|stream|) + rest;
    HasBoth(file, i, x.lengthHead, digits);
    var b := i + |x.lengthHead|;
    var e := b + |Decimal.Render(|stream|)|;
    assert rest != "" && rest[0] == x.streamHead[0];
    NumberReads(file, b, |stream|, rest);
    StreamBodyReads(x, file, e, stream);
    StreamAtLength(x, file, i, e, |stream|);
  }

  // -- The round trip -------------------------------------------------------------------

  lemma {:induction false} ContentObject(x: Syntax, pages: seq<string>, n: nat, i: nat)
    requires i < n <= |pages|
    ensures ObjectsTo(x, pages, n)[4 + 2 * i] == StreamObject(x, ContentStream(pages[i]))
    ensures ObjectsTo(x, pages, n)[3 + 2 * i] == PageObject(x, i)
  {
    AppendPair(ObjectsTo(x, pages, n - 1), PageObject(x, n - 1), StreamObject(x, ContentStream(pages[n - 1])));
    if i < n - 1 {
      ContentObject(x, pages, n - 1, i);
    }
  }

  lemma AppendPair(before: seq<string>, a: string, b: string)
    ensures var s := before + [a, b];
            && s[|before|] == a && s[|before| + 1] == b
            && forall k :: 0 <= k < |before| ==> s[k] == before[k]
  {
  }

  lemma PageReads(x: Syntax, file: string, p: nat, i: nat, text: string)
    requires Sound(x) && ObjectStart(x, file, 5 + 2 * i) == Some(p)
    requires Has(file, p, StreamObject(x, ContentStream(text)) + x.endObject)
    ensures ReadPage(x, file, i) == Some(Decoded(Split(text)))
    ensures ReadPage(x, file, i) == Some(Split(text)) <==> '\r' !in text
  {
    var whole := StreamObject(x, ContentStream(text));
    HasFirst(whole, x.endObject);
    HasInner(file, p, whole + x.endObject, 0, whole);
    StreamReads(x, file, p, ContentStream(text));
    ContentRoundTrip(text);
  }

  // A reader that follows startxref, the table and Length decodes, for page i, the
  // lines of its text with each carriage return read as a newline; so it restores
  // the page exactly when the page has no carriage return.
  lemma WriteThenRead(x: Syntax, pages: seq<string>, i: nat)
    requires Sound(x) && |File(x, Objects(x, pages))| < Decimal.Pow10(10) && i < |pages|
    ensures var read := ReadPage(x, File(x, Objects(x, pages)), i);
            && read == Some(Decoded(Split(pages[i])))
            && (read == Some(Split(pages[i])) <==> '\r' !in pages[i])
  {
    var p := ObjectIsFound(x, Objects(x, pages), 5 + 2 * i);
    ContentObject(x, pages, |pages|, i);
    PageReads(x, File(x, Objects(x, pages)), p, i, pages[i]);
  }

  // Page i's dictionary, object 4 + 2i, is where its entry says, and names content
  // object 5 + 2i.
  lemma PageNamesItsContent(x: Syntax, pages: seq<string>, i: nat) returns (p: nat)
    requires Sound(x) && |File(x, Objects(x, pages))| < Decimal.Pow10(10) && i < |pages|
    ensures ObjectStart(x, File(x, Objects(x, pages)), 4 + 2 * i) == Some(p)
    ensures Has(File(x, Objects(x, pages)), p, PageObject(x, i) + x.endObject)
  {
    p := ObjectIsFound(x, Objects(x, pages), 4 + 2 * i);
    ContentObject(x, pages, |pages|, i);
  }

  // -- The writer -----------------------------------------------------------------------

  lemma AllPagesRead(pages: seq<string>, data: string)
    requires data == File(PDF, Objects(PDF, pages)) && |data| < Decimal.Pow10(10)
    ensures forall i :: 0 <= i < |pages| ==>
              && ReadPage(PDF, data, i) == Some(Decoded(Split(pages[i])))
              && (ReadPage(PDF, data, i) == Some(Split(pages[i])) <==> '\r' !in pages[i])
  {
    PdfIsSound();
    forall i | 0 <= i < |pages|
      ensures ReadPage(PDF, data, i) == Some(Decoded(Split(pages[i])))
      ensures ReadPage(PDF, data, i) == Some(Split(pages[i])) <==> '\r' !in pages[i]
    {
      WriteThenRead(PDF, pages, i);
    }
  }

  datatype Written = Written(data: string) | NotAscii | TooManyLines

  predicate IsAscii(text: string) {
    forall i :: 0 <= i < |text| ==> text[i] as int < 128
  }

  method WritePdf(pages: seq<string>) returns (r: Written)
    ensures r.NotAscii? <==> exists i :: 0 <= i < |pages| && !IsAscii(pages[i])
    ensures r.TooManyLines? <==>
              && (forall i :: 0 <= i < |pages| ==> IsAscii(pages[i]))
              && exists i :: 0 <= i < |pages| && |Split(pages[i])| > MAX_LINES_PER_PAGE
    ensures r.Written? ==> r.data == File(PDF, Objects(PDF, pages))
    ensures r.Written? && |r.data| < Decimal.Pow10(10) ==>
              forall i :: 0 <= i < |pages| ==>
                && ReadPage(PDF, r.data, i) == Some(Decoded(Split(pages[i])))
                && (ReadPage(PDF, r.data, i) == Some(Split(pages[i])) <==> '\r' !in pages[i])
  {
    for i := 0 to |pages|
      invariant forall j :: 0 <= j < i ==> IsAscii(pages[j])
    {
      if !IsAscii(pages[i]) {
        return NotAscii;
      }
    }
    for i := 0 to |pages|
      invariant forall j :: 0 <= j < i ==> |Split(pages[j])| <= MAX_LINES_PER_PAGE
    {
      if |Split(pages[i])| > MAX_LINES_PER_PAGE {
        return TooManyLines;
      }
    }
    var objects := ListObjects(PDF, pages);
    var data := Assemble(PDF, objects);
    r := Written(data);
    if |data| < Decimal.Pow10(10) {
      AllPagesRead(pages, data);
    }
  }
}
