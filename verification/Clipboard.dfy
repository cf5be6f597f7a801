/** The printed form of a clipboard and the reader of it. */
module Clipboard {

  import opened Pixels

  type Bytes = seq<byte>

  const NEWLINE: byte := 10
  const LIMIT := 0x7FFF_FFFF_FFFF_FFFF

  datatype Entry = Entry(mimeType: Bytes, content: Bytes)

  /** The entries read, and whether the reader came to the end without an exception. */
  datatype Outcome = Outcome(entries: seq<Entry>, ok: bool)

  // ---- hexadecimal lengths

  function HexDigit(n: nat): byte
    requires n < 16
  {
    if n < 10 then 48 + n else 87 + n
  }

  function Hex(n: nat): (s: Bytes)
    ensures s != []
  {
    if n < 16 then [HexDigit(n)] else Hex(n / 16) + [HexDigit(n % 16)]
  }

  function DigitValue(b: byte): int {
    if 48 <= b <= 57 then b - 48
    else if 97 <= b <= 102 then b - 87
    else if 65 <= b <= 70 then b - 55
    else -1
  }

  /** The number that the leading hexadecimal digits continue. */
  function Digits(s: Bytes, value: nat): nat {
    if s == [] || DigitValue(s[0]) < 0 then value else Digits(s[1..], 16 * value + DigitValue(s[0]))
  }

  predicate IsSpace(b: byte) { b == 32 || 9 <= b <= 13 }

  function SkipSpace(s: Bytes): Bytes {
    if s != [] && IsSpace(s[0]) then SkipSpace(s[1..]) else s
  }

  function SkipPrefix(s: Bytes): Bytes {
    if |s| > 1 && s[0] == 48 && (s[1] == 120 || s[1] == 88) then s[2..] else s
  }

  /** strtoll of base 16, converted to an unsigned 64-bit length. */
  function Length(hexLen: Bytes): nat {
    var s := SkipSpace(hexLen);
    var negative := s != [] && s[0] == 45;
    var digits := if s != [] && (s[0] == 45 || s[0] == 43) then s[1..] else s;
    var value := Digits(SkipPrefix(digits), 0);
    if negative then
      (if value == 0 then 0 else if value > LIMIT then LIMIT + 1 else 0x1_0000_0000_0000_0000 - value)
    else if value > LIMIT then LIMIT else value
  }

  // ---- input streams

  datatype Stream = Stream(rest: Bytes, eof: bool, fail: bool)

  /** A stream over bytes fails only at its end. */
  predicate Sound(s: Stream) { (s.fail ==> s.eof) && (s.eof ==> s.rest == []) }

  function Measure(s: Stream): nat { |s.rest| + if s.eof then 0 else 1 }

  function LineEnd(s: Bytes): (i: nat)
    ensures i <= |s| && forall j :: 0 <= j < i ==> s[j] != NEWLINE
    ensures i < |s| ==> s[i] == NEWLINE
  {
    if s == [] || s[0] == NEWLINE then 0 else 1 + LineEnd(s[1..])
  }

  /** std::getline: the line, without its newline, and the stream after it. */
  function Line(s: Stream): Bytes {
    if s.eof || s.fail then [] else s.rest[..LineEnd(s.rest)]
  }

  function AfterLine(s: Stream): (t: Stream)
    ensures Sound(s) ==> Sound(t) && Measure(t) <= Measure(s)
    ensures Sound(s) && !s.eof ==> Measure(t) < Measure(s)
  {
    var i := LineEnd(s.rest);
    if s.eof || s.fail then s.(fail := true)
    else if i < |s.rest| then s.(rest := s.rest[i + 1..])
    else Stream([], true, s.rest == [])
  }

  function AfterBytes(s: Stream, n: nat): (t: Stream)
    ensures Sound(s) ==> Sound(t) && Measure(t) <= Measure(s)
  {
    if s.eof || s.fail then s.(fail := true)
    else if n <= |s.rest| then s.(rest := s.rest[n..])
    else Stream([], true, true)
  }

  /** What the reader makes of a stream. */
  function ReadAll(s: Stream): Outcome
    requires Sound(s)
    decreases Measure(s)
  {
    if s.eof then Outcome([], true)
    else
      var mime, hexLen, t := Line(s), Line(AfterLine(s)), AfterLine(AfterLine(s));
      if mime != [] && hexLen != [] && !t.fail then
        var len := Length(hexLen);
        var u := AfterBytes(t, len);
        if u.fail then Outcome([], false)
        else
          var tail := ReadAll(AfterLine(u));
          Outcome([Entry(mime, t.rest[..len])] + tail.entries, tail.ok)
      else ReadAll(t)
  }

  // ---- printing

  /** A line, and what comes after it. */
  function Lines(a: Bytes, b: Bytes): Bytes { a + [NEWLINE] + b }

  function PrintEntry(e: Entry): Bytes {
    e.mimeType + [NEWLINE] + Hex(|e.content|) + [NEWLINE] + e.content + [NEWLINE]
  }

  function Print(entries: seq<Entry>): Bytes {
    if entries == [] then [] else PrintEntry(entries[0]) + Print(entries[1..])
  }

  /** What the format can carry: a type of one non-empty line, a length strtoll can give. */
  predicate Printable(e: Entry) {
    e.mimeType != [] && NEWLINE !in e.mimeType && |e.content| <= LIMIT
  }

  // ---- the length comes back

  lemma {:induction false} HexIsDigits(n: nat)
    ensures forall b <- Hex(n) :: DigitValue(b) >= 0
    ensures Digits(Hex(n), 0) == n
  {
    if n >= 16 {
      HexIsDigits(n / 16);
      DigitsConcat(Hex(n / 16), [HexDigit(n % 16)], 0);
    }
  }

  /** The sixteen digits, in small letters or capitals, and nothing else, are digits. */
  lemma DigitValueMeans(b: byte)
    ensures var small, capital := "0123456789abcdef", "0123456789ABCDEF";
      && (forall n :: 0 <= n < 16 && (b == small[n] as int || b == capital[n] as int) ==> DigitValue(b) == n)
      && DigitValue(b) < 16
      && (DigitValue(b) >= 0 ==> b == small[DigitValue(b)] as int || b == capital[DigitValue(b)] as int)
  {
  }

  /** Lengths are printed in small letters, without leading zeros. */
  lemma {:induction false} HexIsPlain(n: nat)
    ensures forall b <- Hex(n) :: 48 <= b <= 57 || 97 <= b <= 102
    ensures n > 0 ==> Hex(n)[0] != 48
  {
    if n >= 16 {
      HexIsPlain(n / 16);
    }
  }

  lemma {:induction false} DigitsConcat(a: Bytes, b: Bytes, value: nat)
    requires forall x <- a :: DigitValue(x) >= 0
    ensures Digits(a + b, value) == Digits(b, Digits(a, value))
  {
    if a == [] {
      assert a + b == b;
    } else {
      assert (a + b)[1..] == a[1..] + b;
      DigitsConcat(a[1..], b, 16 * value + DigitValue(a[0]));
    }
  }

  lemma LengthOfHex(n: nat)
    requires n <= LIMIT
    ensures Length(Hex(n)) == n && NEWLINE !in Hex(n)
  {
    HexIsDigits(n);
    var s := Hex(n);
    hide Hex, Digits;
    assert s[0] in s && (|s| > 1 ==> s[1] in s);
    assert SkipSpace(s) == s && SkipPrefix(s) == s;
    assert DigitValue(NEWLINE) < 0;
  }

  // ---- reading back

  lemma {:induction false} LineEndAt(a: Bytes, b: Bytes)
    requires NEWLINE !in a
    ensures LineEnd(a + [NEWLINE] + b) == |a|
  {
    if a == [] {
      assert a + [NEWLINE] + b == [NEWLINE] + b;
    } else {
      assert (a + [NEWLINE] + b)[1..] == a[1..] + [NEWLINE] + b;
      LineEndAt(a[1..], b);
    }
  }

  lemma LineOf(a: Bytes, b: Bytes)
    requires NEWLINE !in a
    ensures Line(Stream(Lines(a, b), false, false)) == a
    ensures AfterLine(Stream(Lines(a, b), false, false)) == Stream(b, false, false)
  {
    LineEndAt(a, b);
  }

  /** One round of the reader: an entry, an error, or nothing. */
  lemma ReadStep(s: Stream)
    requires Sound(s) && !s.eof
    ensures var mime, hexLen, t := Line(s), Line(AfterLine(s)), AfterLine(AfterLine(s));
      var u := AfterBytes(t, Length(hexLen));
      ReadAll(s) == if mime == [] || hexLen == [] || t.fail then ReadAll(t)
                    else if u.fail then Outcome([], false)
                    else var tail := ReadAll(AfterLine(u));
                      Outcome([Entry(mime, t.rest[..Length(hexLen)])] + tail.entries, tail.ok)
  {
    hide Length, Line;
  }

  lemma EntryLines(e: Entry, rest: Bytes)
    ensures PrintEntry(e) + rest == Lines(e.mimeType, Lines(Hex(|e.content|), e.content + Lines([], rest)))
  {
    hide Hex;
  }

  lemma ContentOf(content: Bytes, rest: Bytes)
    ensures AfterBytes(Stream(content + rest, false, false), |content|) == Stream(rest, false, false)
    ensures (content + rest)[..|content|] == content
  {
  }

  lemma ReadEntry(e: Entry, rest: Bytes)
    requires Printable(e)
    ensures var tail := ReadAll(Stream(rest, false, false));
      ReadAll(Stream(PrintEntry(e) + rest, false, false)) == Outcome([e] + tail.entries, tail.ok)
  {
    var hex := Hex(|e.content|);
    LengthOfHex(|e.content|);
    EntryLines(e, rest);
    hide Hex, Length, Line, AfterLine, AfterBytes, ReadAll, PrintEntry, Lines;
    LineOf(e.mimeType, Lines(hex, e.content + Lines([], rest)));
    LineOf(hex, e.content + Lines([], rest));
    ContentOf(e.content, Lines([], rest));
    LineOf([], rest);
    ReadStep(Stream(Lines(e.mimeType, Lines(hex, e.content + Lines([], rest))), false, false));
  }

  lemma {:induction false} ReadPrinted(entries: seq<Entry>)
    requires forall e <- entries :: Printable(e)
    ensures ReadAll(Stream(Print(entries), false, false)) == Outcome(entries, true)
  {
    if entries != [] {
      assert entries[0] in entries;
      ReadPrinted(entries[1..]);
      ReadEntry(entries[0], Print(entries[1..]));
      assert [entries[0]] + entries[1..] == entries;
    }
  }

  /** Whatever the bytes, the reader yields entries that can be printed. */
  lemma {:induction false} ReadIsPrintable(s: Stream)
    requires Sound(s)
    ensures forall e <- ReadAll(s).entries :: e.mimeType != [] && NEWLINE !in e.mimeType
    decreases Measure(s)
  {
    if !s.eof {
      var t := AfterLine(AfterLine(s));
      ReadIsPrintable(t);
      var u := AfterBytes(t, Length(Line(AfterLine(s))));
      ReadIsPrintable(AfterLine(u));
    }
  }

  /** After its first line, the printed clipboard is read back exactly if every type is
      a non-empty line. */
  lemma ClipboardRoundTrip(command: Bytes, entries: seq<Entry>)
    requires NEWLINE !in command
    requires forall e <- entries :: |e.content| <= LIMIT
    ensures var s := AfterLine(Stream(Lines(command, Print(entries)), false, false));
      ReadAll(s) == Outcome(entries, true) <==> forall e <- entries :: e.mimeType != [] && NEWLINE !in e.mimeType
  {
    LineOf(command, Print(entries));
    var s := Stream(Print(entries), false, false);
    ReadIsPrintable(s);
    if forall e <- entries :: e.mimeType != [] && NEWLINE !in e.mimeType {
      ReadPrinted(entries);
    }
  }

  /** A content shorter than announced is an error, whatever follows; what was read before stays. */
  lemma ShortContentFails(mimeType: Bytes, n: nat, content: Bytes)
    requires mimeType != [] && NEWLINE !in mimeType && |content| < n <= LIMIT
    ensures ReadAll(Stream(Lines(mimeType, Lines(Hex(n), content)), false, false)) == Outcome([], false)
  {
    LengthOfHex(n);
    LineOf(mimeType, Lines(Hex(n), content));
    LineOf(Hex(n), content);
    hide Hex, Length, Line, AfterLine, ReadAll, Lines;
    ReadStep(Stream(Lines(mimeType, Lines(Hex(n), content)), false, false));
  }

  /** Two lines of which one is empty are skipped, and reading goes on behind them. */
  lemma ReadSkipsEmpty(a: Bytes, b: Bytes, rest: Bytes)
    requires NEWLINE !in a && NEWLINE !in b && (a == [] || b == [])
    ensures ReadAll(Stream(Lines(a, Lines(b, rest)), false, false)) == ReadAll(Stream(rest, false, false))
  {
    LineOf(a, Lines(b, rest));
    LineOf(b, rest);
    hide Length, Line, AfterLine, ReadAll, Lines;
    ReadStep(Stream(Lines(a, Lines(b, rest)), false, false));
  }

  lemma {:induction false} SkipBlanks(blanks: Bytes, s: Bytes)
    requires (forall b <- blanks :: IsSpace(b)) && (s == [] || !IsSpace(s[0]))
    ensures SkipSpace(blanks + s) == s
  {
    if blanks == [] {
      assert blanks + s == s;
    } else {
      assert (blanks + s)[1..] == blanks[1..] + s;
      SkipBlanks(blanks[1..], s);
    }
  }

  /** The length is also read behind blanks and a sign, and whatever follows its digits is
      ignored. A negative one is a huge one. */
  lemma LengthIsLenient(blanks: Bytes, sign: byte, n: nat, junk: Bytes)
    requires forall b <- blanks :: IsSpace(b)
    requires sign in {43, 45} && 0 < n <= LIMIT && (junk == [] || DigitValue(junk[0]) < 0)
    ensures Length(blanks + ([sign] + (Hex(n) + junk))) == if sign == 45 then 0x1_0000_0000_0000_0000 - n else n
  {
    var s := [sign] + (Hex(n) + junk);
    SkipBlanks(blanks, s);
    HexIsDigits(n);
    DigitsConcat(Hex(n), junk, 0);
    HexIsPlain(n);
    assert s[1..] == Hex(n) + junk;
    assert SkipPrefix(Hex(n) + junk) == Hex(n) + junk;
    hide Hex, Digits, SkipSpace;
    assert SkipSpace(blanks + s) == s;
  }

  // ---- the writer

  method AppendHex(output: Bytes, number: nat) returns (result: Bytes)
    ensures result == output + Hex(number)
  {
    result := output + Hex(number);
  }

  method AppendEntry(output: Bytes, mimeType: Bytes, stream: Bytes) returns (result: Bytes)
    ensures result == output + PrintEntry(Entry(mimeType, stream))
  {
    hide Hex;
    result := output + mimeType;
    result := result + [NEWLINE];
    result := AppendHex(result, |stream|);
    result := result + [NEWLINE];
    result := result + stream;
    result := result + [NEWLINE];
  }

  lemma LinesMore(a: Bytes, b: Bytes, c: Bytes)
    ensures Lines(a, b) + c == Lines(a, b + c)
  {
  }

  /** The clipboard's payload: a first line that the receiver drops, then the entries. */
  method GetClipboard(mimeTypes: seq<Bytes>, streams: seq<Bytes>) returns (output: Bytes)
    requires |mimeTypes| == |streams|
    ensures output == Lines(Header(), Print(Zip(mimeTypes, streams)))
  {
    output := Header() + [NEWLINE];
    ghost var all := Zip(mimeTypes, streams);
    assert Print(all[..0]) == [];
    hide Header, PrintEntry, Print, Zip;
    for i := 0 to |mimeTypes|
      invariant output == Lines(Header(), Print(all[..i]))
    {
      PrintMore(all, i);
      LinesMore(Header(), Print(all[..i]), PrintEntry(all[i]));
      hide Lines;
      output := AppendEntry(output, mimeTypes[i], streams[i]);
    }
    assert all[..|mimeTypes|] == all;
  }

  /** "clipboardcontent: content" */
  function Header(): Bytes {
    [99, 108, 105, 112, 98, 111, 97, 114,
     100, 99, 111, 110, 116, 101, 110, 116, 58, 32, 99, 111, 110, 116, 101, 110, 116]
  }

  lemma HeaderSpells()
    ensures var text := "clipboardcontent: content";
      |Header()| == |text| && forall i :: 0 <= i < |text| ==> Header()[i] == text[i] as int
  {
  }

  function Zip(mimeTypes: seq<Bytes>, streams: seq<Bytes>): (entries: seq<Entry>)
    requires |mimeTypes| == |streams|
    ensures |entries| == |mimeTypes| && forall i :: 0 <= i < |entries| ==> entries[i] == Entry(mimeTypes[i], streams[i])
  {
    seq(|mimeTypes|, i requires 0 <= i < |mimeTypes| => Entry(mimeTypes[i], streams[i]))
  }

  lemma {:induction false} PrintMore(entries: seq<Entry>, n: nat)
    requires n < |entries|
    ensures Print(entries[..n + 1]) == Print(entries[..n]) + PrintEntry(entries[n])
  {
    if n > 0 {
      PrintMore(entries[1..], n - 1);
      assert entries[1..][..n] == entries[..n + 1][1..] && entries[1..][..n - 1] == entries[..n][1..];
    } else {
      assert entries[..1][1..] == [] && entries[..0] == [];
    }
  }

  // ---- the reader

  class InStream {
    var rest: Bytes
    var eofbit: bool
    var failbit: bool

    function Value(): Stream
      reads this
    {
      Stream(rest, eofbit, failbit)
    }

    constructor (bytes: Bytes)
      ensures Value() == Stream(bytes, false, false)
    {
      rest, eofbit, failbit := bytes, false, false;
    }

    method Getline() returns (line: Bytes)
      modifies this
      ensures line == Line(old(Value())) && Value() == AfterLine(old(Value()))
    {
      if eofbit || failbit {
        failbit := true;
        return [];
      }
      var i := LineEnd(rest);
      line := rest[..i];
      if i < |rest| {
        rest := rest[i + 1..];
      } else {
        eofbit, failbit := true, rest == [];
        rest := [];
      }
    }

    method Read(n: nat) returns (bytes: Bytes)
      modifies this
      ensures Value() == AfterBytes(old(Value()), n)
      ensures !failbit ==> n <= |old(rest)| && bytes == old(rest)[..n]
    {
      bytes := [];
      if eofbit || failbit {
        failbit := true;
      } else if n <= |rest| {
        bytes, rest := rest[..n], rest[n..];
      } else {
        rest, eofbit, failbit := [], true, true;
      }
    }
  }

  class ClipboardData {
    var mimeTypes: seq<Bytes>
    var content: seq<Bytes>

    ghost predicate Valid()
      reads this
    {
      |mimeTypes| == |content|
    }

    function Entries(): seq<Entry>
      reads this
      requires Valid()
    {
      Zip(mimeTypes, content)
    }

    constructor ()
      ensures Valid() && Entries() == []
    {
      mimeTypes, content := [], [];
    }

    /** Remembers an entry. */
    method Keep(mime: Bytes, bytes: Bytes)
      requires Valid()
      modifies this
      ensures Valid() && Entries() == old(Entries()) + [Entry(mime, bytes)]
    {
      ZipMore(mimeTypes, content, mime, bytes);
      mimeTypes := mimeTypes + [mime];
      content := content + [bytes];
    }

    /** One round of the loop: to read the rest from here is to read all from before. */
    method ReadOne(inStream: InStream) returns (ok: bool)
      requires Valid() && Sound(inStream.Value()) && !inStream.eofbit
      modifies this, inStream
      ensures Valid() && Sound(inStream.Value()) && Measure(inStream.Value()) < Measure(old(inStream.Value()))
      ensures ok ==>
        && Entries() + ReadAll(inStream.Value()).entries == old(Entries()) + ReadAll(old(inStream.Value())).entries
        && ReadAll(inStream.Value()).ok == ReadAll(old(inStream.Value())).ok
      ensures !ok ==>
        && Entries() == old(Entries()) + ReadAll(old(inStream.Value())).entries
        && !ReadAll(old(inStream.Value())).ok
    {
      ghost var had, before := Entries(), inStream.Value();
      ReadStep(before);
      hide ReadAll, Length, Line, AfterLine, AfterBytes, Zip;
      var mime := inStream.Getline();
      var hexLen := inStream.Getline();
      if mime != [] && hexLen != [] && !inStream.failbit {
        var bytes := inStream.Read(Length(hexLen));
        if inStream.failbit {
          return false;
        }
        var newline := inStream.Getline();
        Keep(mime, bytes);
        Regroup(had, Entry(mime, bytes), ReadAll(inStream.Value()).entries);
      }
      ok := true;
    }

    /** Reads to the end of any stream; ok is false if some content was shorter than announced. */
    method Read(inStream: InStream) returns (ok: bool)
      requires Valid() && Sound(inStream.Value())
      modifies this, inStream
      ensures Valid() && Entries() == old(Entries()) + ReadAll(old(inStream.Value())).entries
      ensures ok == ReadAll(old(inStream.Value())).ok
    {
      hide ReadAll, Entries, Measure;
      while !inStream.eofbit
        invariant Valid() && Sound(inStream.Value())
        invariant Entries() + ReadAll(inStream.Value()).entries
               == old(Entries()) + ReadAll(old(inStream.Value())).entries
        invariant ReadAll(inStream.Value()).ok == ReadAll(old(inStream.Value())).ok
        decreases Measure(inStream.Value())
      {
        ok := ReadOne(inStream);
        if !ok {
          return;
        }
      }
      ok := true;
      AtEnd(inStream.Value());
    }
  }

  lemma ZipMore(mimeTypes: seq<Bytes>, content: seq<Bytes>, mime: Bytes, bytes: Bytes)
    requires |mimeTypes| == |content|
    ensures Zip(mimeTypes + [mime], content + [bytes]) == Zip(mimeTypes, content) + [Entry(mime, bytes)]
  {
  }

  lemma Regroup(a: seq<Entry>, e: Entry, b: seq<Entry>)
    ensures (a + [e]) + b == a + ([e] + b)
  {
  }

  lemma AtEnd(s: Stream)
    requires Sound(s) && s.eof
    ensures ReadAll(s) == Outcome([], true)
  {
  }
}
