/** The "Print" action of the invoice viewer: the bytes written to the
    temporary file handed to the default printer, each invoice in UTF-8
    followed by a dashed separator. */
module PrintStream {
  import opened Wrappers
  import opened Text
  import opened Seqs

  type byte = x: int | 0 <= x < 256

  // ---------------------------------------------------------------------
  // UTF-8, as `str.encode('utf-8')` writes it

  /** A continuation byte: `10xxxxxx`. */
  predicate IsContinuation(b: byte) {
    0x80 <= b < 0xC0
  }

  /** The bytes of one code point: one byte below U+0080, then two, three
      or four bytes, the first telling how many follow. */
  function EncodeChar(c: char): (bs: seq<byte>)
    ensures 1 <= |bs| <= 4
    ensures |bs| == 1 <==> c as int < 0x80
    ensures |bs| == 1 ==> bs[0] == c as int
    ensures |bs| == 2 <==> 0x80 <= c as int < 0x800
    ensures |bs| == 2 ==> 0xC0 <= bs[0] < 0xE0
    ensures |bs| == 3 <==> 0x800 <= c as int < 0x10000
    ensures |bs| == 3 ==> 0xE0 <= bs[0] < 0xF0
    ensures |bs| == 4 <==> 0x10000 <= c as int
    ensures |bs| == 4 ==> 0xF0 <= bs[0] < 0xF8
    ensures forall k :: 1 <= k < |bs| ==> IsContinuation(bs[k])
  {
    var n := c as int;
    if n < 0x80 then [n]
    else if n < 0x800 then [0xC0 + n / 64, 0x80 + n % 64]
    else if n < 0x10000 then [0xE0 + n / 64 / 64, 0x80 + n / 64 % 64, 0x80 + n % 64]
    else [0xF0 + n / 64 / 64 / 64, 0x80 + n / 64 / 64 % 64, 0x80 + n / 64 % 64, 0x80 + n % 64]
  }

  /** The code point a well-formed sequence for one character denotes:
      the payload bits of the leading byte, then six bits per continuation byte. */
  function DecodeChar(bs: seq<byte>): int
    requires 1 <= |bs| <= 4
  {
    var b0 := bs[0] as int;
    if |bs| == 1 then b0
    else if |bs| == 2 then (b0 - 0xC0) * 64 + (bs[1] as int - 0x80)
    else if |bs| == 3 then ((b0 - 0xE0) * 64 + (bs[1] as int - 0x80)) * 64 + (bs[2] as int - 0x80)
    else (((b0 - 0xF0) * 64 + (bs[1] as int - 0x80)) * 64 + (bs[2] as int - 0x80)) * 64 + (bs[3] as int - 0x80)
  }

  /** Encoding a character loses nothing: its bytes decode back to it. */
  lemma EncodeCharRoundTrip(c: char)
    ensures DecodeChar(EncodeChar(c)) == c as int
  {
    var n := c as int;
    var q1 := n / 64;
    assert n == q1 * 64 + n % 64;
    if 0x800 <= n < 0x10000 {
      var q2 := q1 / 64;
      assert q1 == q2 * 64 + q1 % 64;
    } else if 0x10000 <= n {
      var q2 := q1 / 64;
      var q3 := q2 / 64;
      assert q1 == q2 * 64 + q1 % 64;
      assert q2 == q3 * 64 + q2 % 64;
    }
  }

  /** `s.encode('utf-8')`: the bytes of every character, in order. */
  function Encode(s: string): (bs: seq<byte>)
    ensures |bs| >= |s|
  {
    if s == [] then [] else Encode(s[..|s| - 1]) + EncodeChar(s[|s| - 1])
  }

  /** A single character encodes as its own bytes; with `EncodeAppend` this
      fixes every byte of an encoding. */
  lemma EncodeSingle(c: char)
    ensures Encode([c]) == EncodeChar(c)
  {
    assert [c][..0] == [];
  }

  /** Encoding distributes over concatenation. */
  lemma {:induction false} EncodeAppend(a: string, b: string)
    ensures Encode(a + b) == Encode(a) + Encode(b)
    decreases |b|
  {
    if b == [] {
      assert a + b == a;
    } else {
      var b' := b[..|b| - 1];
      AppendFront(a, b);
      EncodeAppend(a, b');
      assert Encode(a + b) == Encode(a + b') + EncodeChar(b[|b| - 1]);
    }
  }

  /** Text made of characters below U+0080 is its own encoding, code for code. */
  lemma {:induction false} EncodeAscii(s: string)
    requires forall k :: 0 <= k < |s| ==> s[k] as int < 0x80
    ensures |Encode(s)| == |s|
    ensures forall k :: 0 <= k < |s| ==> Encode(s)[k] == s[k] as int
    decreases |s|
  {
    if s != [] {
      var s' := s[..|s| - 1];
      EncodeAscii(s');
    }
  }

  // ---------------------------------------------------------------------
  // The stream

  const SeparatorDashes: nat := 83

  /** `"\n" + "-" * 83 + "\n\n"`, written after every invoice. */
  const SeparatorText: string := "\n" + Repeat('-', SeparatorDashes) + "\n\n"

  /** The separator's bytes: all ASCII, so one byte per character. */
  function SeparatorBytes(): (bs: seq<byte>)
    ensures |bs| == |SeparatorText| == 86
    ensures bs[0] == 10 && bs[84] == 10 && bs[85] == 10
    ensures forall k :: 1 <= k < 84 ==> bs[k] == 45
  {
    var t := SeparatorText;
    assert forall k :: 1 <= k < 84 ==> t[k] == '-';
    assert t[0] == '\n' && t[84] == '\n' && t[85] == '\n';
    EncodeAscii(t);
    Encode(t)
  }

  /** The text of the stream: each invoice followed by the separator, in
      the order the viewer holds them. */
  function StreamText(invoices: seq<string>): string {
    if invoices == [] then []
    else StreamText(invoices[..|invoices| - 1]) + invoices[|invoices| - 1] + SeparatorText
  }

  /** The bytes of the stream: each invoice's UTF-8 bytes, then the separator's. */
  function StreamBytes(invoices: seq<string>): seq<byte> {
    if invoices == [] then []
    else StreamBytes(invoices[..|invoices| - 1]) + Encode(invoices[|invoices| - 1]) + SeparatorBytes()
  }

  /** Writing invoice by invoice is encoding the whole text at once. */
  lemma {:induction false} StreamBytesEncode(invoices: seq<string>)
    ensures StreamBytes(invoices) == Encode(StreamText(invoices))
    decreases |invoices|
  {
    if invoices != [] {
      var front := invoices[..|invoices| - 1];
      var last := invoices[|invoices| - 1];
      StreamBytesEncode(front);
      EncodeAppend(StreamText(front) + last, SeparatorText);
      EncodeAppend(StreamText(front), last);
    }
  }

  /** The stream of a batch split in two is the stream of the first part
      followed by the stream of the second. */
  lemma {:induction false} StreamTextAppend(a: seq<string>, b: seq<string>)
    ensures StreamText(a + b) == StreamText(a) + StreamText(b)
    decreases |b|
  {
    if b == [] {
      assert a + b == a;
    } else {
      var b' := b[..|b| - 1];
      assert (a + b)[..|a + b| - 1] == a + b';
      StreamTextAppend(a, b');
    }
  }

  /** Total length of the invoices. */
  function TotalLength(invoices: seq<string>): nat {
    if invoices == [] then 0 else TotalLength(invoices[..|invoices| - 1]) + |invoices[|invoices| - 1]|
  }

  /** The stream holds every invoice character and 86 separator characters per invoice. */
  lemma {:induction false} StreamTextLength(invoices: seq<string>)
    ensures |StreamText(invoices)| == TotalLength(invoices) + 86 * |invoices|
    decreases |invoices|
  {
    if invoices != [] {
      StreamTextLength(invoices[..|invoices| - 1]);
    }
  }

  /** Where invoice `i` starts in the stream text. */
  function Offset(invoices: seq<string>, i: nat): nat
    requires i <= |invoices|
  {
    |StreamText(invoices[..i])|
  }

  /** Invoice `i` sits in the stream at its offset, verbatim, followed by
      the separator, and the next invoice starts right after. */
  lemma StreamPiece(invoices: seq<string>, i: nat)
    requires i < |invoices|
    ensures Offset(invoices, i + 1) == Offset(invoices, i) + |invoices[i]| + |SeparatorText|
    ensures Offset(invoices, i + 1) <= |StreamText(invoices)|
    ensures StreamText(invoices)[Offset(invoices, i)..Offset(invoices, i) + |invoices[i]|] == invoices[i]
    ensures StreamText(invoices)[Offset(invoices, i) + |invoices[i]|..Offset(invoices, i + 1)] == SeparatorText
  {
    StreamTextNext(invoices, i);
    StreamTextSplit(invoices, i + 1);
    SliceParts(StreamText(invoices[..i]), invoices[i], SeparatorText, StreamText(invoices[i + 1..]));
    assert StreamText(invoices) == StreamText(invoices[..i]) + invoices[i] + SeparatorText + StreamText(invoices[i + 1..]);
  }

  /** The stream up to and including invoice `i` is the stream before it,
      the invoice and its separator. */
  lemma StreamTextNext(invoices: seq<string>, i: nat)
    requires i < |invoices|
    ensures StreamText(invoices[..i + 1]) == StreamText(invoices[..i]) + invoices[i] + SeparatorText
  {
    assert invoices[..i + 1][..i] == invoices[..i];
  }

  /** The stream is the stream up to a point followed by the stream after it. */
  lemma StreamTextSplit(invoices: seq<string>, i: nat)
    requires i <= |invoices|
    ensures StreamText(invoices) == StreamText(invoices[..i]) + StreamText(invoices[i..])
  {
    TakeDrop(invoices, i);
    StreamTextAppend(invoices[..i], invoices[i..]);
  }


  lemma SliceParts(front: string, x: string, sep: string, rest: string)
    ensures (front + x + sep + rest)[|front|..|front| + |x|] == x
    ensures (front + x + sep + rest)[|front| + |x|..|front| + |x| + |sep|] == sep
  {
  }

  /** The stream ends with a separator, and is empty only for no invoices. */
  lemma StreamEnds(invoices: seq<string>)
    ensures StreamText(invoices) == [] <==> invoices == []
    ensures invoices != [] ==>
              StreamText(invoices)[|StreamText(invoices)| - |SeparatorText|..] == SeparatorText
  {
  }

  // ---------------------------------------------------------------------
  // `select_printer_and_print`

  /** Writes the stream unless the default printer's name is empty (the
      `if printer_name:` test). The name and the hand-over to the spooler
      are outside the model: the name is a parameter and the bytes the
      result. */
  method PrintInvoices(printerName: string, invoices: seq<string>) returns (r: Option<seq<byte>>)
    ensures printerName == [] ==> r == None
    ensures printerName != [] ==> r == Some(StreamBytes(invoices))
  {
    if printerName == [] {
      return None;
    }
    var file: seq<byte> := [];
    var i := 0;
    while i < |invoices|
      invariant 0 <= i <= |invoices|
      invariant file == StreamBytes(invoices[..i])
    {
      assert invoices[..i + 1][..i] == invoices[..i];
      file := file + Encode(invoices[i]);
      file := file + SeparatorBytes();
      i := i + 1;
    }
    assert invoices[..i] == invoices;
    r := Some(file);
  }
}
