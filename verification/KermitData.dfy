/** Kermit's data field: control quoting (bufill) and its inverse (bufemp) in kermit.c. */
module KermitData {
  const CR: int := 13
  const LF: int := 10
  const SP: int := 32
  const DEL: int := 127
  const QUOTE: int := 35      // '#'

  predicate IsByte(t: int) { 0 <= t < 256 }

  ghost predicate IsText(s: seq<int>) {
    forall i :: 0 <= i < |s| ==> IsByte(s[i])
  }

  /** ctl: toggle bit 6. */
  function Ctl(t: int): int {
    if t / 64 % 2 == 1 then t - 64 else t + 64
  }

  /** What bufill puts in the packet for one byte of the file. */
  function Encode1(t: int, image: bool): (r: seq<int>)
    requires IsByte(t)
    ensures 1 <= |r| <= 4
  {
    var t7 := t % 128;
    if t7 < SP || t7 == DEL || t7 == QUOTE then
      var crlf := if t == LF && !image then [QUOTE, Ctl(CR)] else [];
      var u := if image then t else t7;
      crlf + [QUOTE, if t7 != QUOTE then Ctl(u) else u]
    else
      [if image then t else t7]
  }

  ghost function EncodeAll(s: seq<int>, image: bool): (r: seq<int>)
    requires IsText(s)
  {
    if s == [] then [] else Encode1(s[0], image) + EncodeAll(s[1..], image)
  }

  lemma {:induction false} EncodeSnoc(s: seq<int>, t: int, image: bool)
    requires IsText(s) && IsByte(t)
    ensures IsText(s + [t]) && EncodeAll(s + [t], image) == EncodeAll(s, image) + Encode1(t, image)
    decreases |s|
  {
    hide Encode1;
    if s == [] {
      assert (s + [t])[1..] == [];
    } else {
      assert (s + [t])[1..] == s[1..] + [t];
      EncodeSnoc(s[1..], t, image);
    }
  }

  /** What a file becomes: itself in image mode; without its high bits and carriage
      returns in text mode. */
  function Plain1(t: int, image: bool): seq<int> {
    if image then [t] else if t % 128 == CR then [] else [t % 128]
  }

  ghost function Plain(s: seq<int>, image: bool): seq<int> {
    if s == [] then [] else Plain1(s[0], image) + Plain(s[1..], image)
  }

  lemma {:induction false} PlainImage(s: seq<int>)
    ensures Plain(s, true) == s
    decreases |s|
  {
    if s != [] {
      PlainImage(s[1..]);
    }
  }

  lemma {:induction false} PlainConcat(s: seq<int>, t: seq<int>, image: bool)
    ensures Plain(s + t, image) == Plain(s, image) + Plain(t, image)
    decreases |s|
  {
    if s == [] {
      assert s + t == t;
    } else {
      assert (s + t)[1..] == s[1..] + t;
      PlainConcat(s[1..], t, image);
    }
  }

  // ----- decoding ------------------------------------------------------------------

  /** One round of bufemp at position i: the next position and what is written.  A lone
      quote at the very end takes the 0 that rpack stores behind the data. */
  function Round(b: seq<int>, i: nat, image: bool): (r: (nat, seq<int>))
    requires i < |b|
    ensures i < r.0 <= |b|
  {
    var quoted := b[i] == QUOTE;
    var q := if i + 1 < |b| then b[i + 1] else 0;
    var t := if quoted then (if q % 128 != QUOTE then Ctl(q) else q) else b[i];
    (if quoted && i + 1 < |b| then i + 2 else i + 1, if t == CR && !image then [] else [t])
  }

  function DecodeFrom(b: seq<int>, i: nat, image: bool): seq<int>
    requires i <= |b|
    decreases |b| - i
  {
    if i == |b| then [] else var (j, o) := Round(b, i, image); o + DecodeFrom(b, j, image)
  }

  lemma {:induction false} DecodeStep(b: seq<int>, i: nat, image: bool)
    requires i <= |b|
    ensures i == |b| ==> DecodeFrom(b, i, image) == []
    ensures i < |b| ==>
      i < Round(b, i, image).0 <= |b| &&
      DecodeFrom(b, i, image) == Round(b, i, image).1 + DecodeFrom(b, Round(b, i, image).0, image)
  {
    hide Round;
    if i < |b| { RoundMoves(b, i, image); }
  }

  lemma {:induction false} RoundMoves(b: seq<int>, i: nat, image: bool)
    requires i < |b|
    ensures i < Round(b, i, image).0 <= |b|
  {
  }

  /** bufemp. */
  method BufEmp(buffer: seq<int>, image: bool) returns (out: seq<int>)
    ensures out == DecodeFrom(buffer, 0, image)
  {
    hide DecodeFrom, Round;
    out := [];
    var i := 0;
    while i < |buffer|
      invariant 0 <= i <= |buffer|
      invariant out + DecodeFrom(buffer, i, image) == DecodeFrom(buffer, 0, image)
      decreases |buffer| - i
    {
      DecodeStep(buffer, i, image);
      var t;
      i, t := NextByte(buffer, i, image);
      if t == CR && !image {
        continue;
      }
      out := out + [t];
    }
    DecodeStep(buffer, i, image);
  }

  /** The byte at i, with its prefix. */
  method NextByte(buffer: seq<int>, i: nat, image: bool) returns (i': nat, t: int)
    requires i < |buffer|
    ensures Round(buffer, i, image) == (i', if t == CR && !image then [] else [t])
  {
    hide Ctl;
    i' := i;
    t := buffer[i'];
    if t == QUOTE {
      i' := i' + 1;
      t := if i' < |buffer| then buffer[i'] else 0;
      if t % 128 != QUOTE {
        t := Ctl(t);
      }
    }
    i' := if i' < |buffer| then i' + 1 else i';
  }

  lemma {:induction false} CtlBack(t: int)
    requires IsByte(t)
    ensures Ctl(Ctl(t)) == t && IsByte(Ctl(t)) && Ctl(t) % 64 == t % 64
    ensures (t % 128 < SP || t % 128 == DEL) ==> Ctl(t) % 128 != QUOTE && Ctl(t % 128) == Ctl(t) % 128
  {
  }

  /** Decoding what one byte was encoded to, wherever it stands. */
  lemma {:induction false} Decode1(b: seq<int>, i: nat, t: int, image: bool)
    requires IsByte(t) && i + |Encode1(t, image)| <= |b|
    requires forall k :: 0 <= k < |Encode1(t, image)| ==> b[i + k] == Encode1(t, image)[k]
    ensures DecodeFrom(b, i, image) == Plain1(t, image) + DecodeFrom(b, i + |Encode1(t, image)|, image)
  {
    hide DecodeFrom;
    var e := Encode1(t, image);
    CtlBack(t);
    CtlBack(t % 128);
    assert b[i + 0] == e[0];
    DecodeStep(b, i, image);
    if |e| == 4 {
      assert b[i + 1] == e[1] && b[i + 2] == e[2] && b[i + 3] == e[3];
      assert Round(b, i, image) == (i + 2, []);
      DecodeStep(b, i + 2, image);
      assert Round(b, i + 2, image) == (i + 4, [LF]);
    } else if |e| == 2 {
      assert b[i + 1] == e[1];
      assert Round(b, i, image) == (i + 2, Plain1(t, image));
    } else {
      assert Round(b, i, image) == (i + 1, Plain1(t, image));
    }
  }

  /** Decoding is the inverse of encoding, up to what text mode drops on purpose. */
  lemma {:induction false} DecodeEncoded(b: seq<int>, i: nat, s: seq<int>, image: bool)
    requires IsText(s) && i <= |b| && b[i..] == EncodeAll(s, image)
    ensures DecodeFrom(b, i, image) == Plain(s, image)
    decreases |s|
  {
    hide Encode1, Plain1, Round, DecodeFrom;
    if s == [] {
      DecodeStep(b, i, image);
    } else {
      var e, r := Encode1(s[0], image), EncodeAll(s[1..], image);
      assert b[i..] == e + r;
      assert forall k :: 0 <= k < |e| ==> b[i + k] == b[i..][k] == e[k];
      assert b[i + |e|..] == r by {
        assert b[i + |e|..] == b[i..][|e|..];
      }
      Decode1(b, i, s[0], image);
      DecodeEncoded(b, i + |e|, s[1..], image);
    }
  }

  lemma {:induction false} RoundTrip(s: seq<int>, image: bool)
    requires IsText(s)
    ensures DecodeFrom(EncodeAll(s, image), 0, image) == Plain(s, image)
    ensures image ==> DecodeFrom(EncodeAll(s, image), 0, image) == s
  {
    var b := EncodeAll(s, image);
    assert b[0..] == b;
    DecodeEncoded(b, 0, s, image);
    PlainImage(s);
  }

  /** A text as it is sent: seven bits a character, and a carriage return ahead of every line
      feed. */
  function Lines1(t: int): seq<int> { if t == LF then [CR, LF] else [t % 128] }

  ghost function Lines(s: seq<int>): seq<int> {
    if s == [] then [] else Lines1(s[0]) + Lines(s[1..])
  }

  lemma {:induction false} Kept1(b: seq<int>, i: nat, t: int)
    requires IsByte(t) && i + |Encode1(t, false)| <= |b|
    requires forall k :: 0 <= k < |Encode1(t, false)| ==> b[i + k] == Encode1(t, false)[k]
    ensures DecodeFrom(b, i, true) == Lines1(t) + DecodeFrom(b, i + |Encode1(t, false)|, true)
  {
    hide DecodeFrom;
    var e := Encode1(t, false);
    CtlBack(t % 128);
    assert b[i + 0] == e[0];
    DecodeStep(b, i, true);
    if |e| == 4 {
      assert b[i + 1] == e[1] && b[i + 2] == e[2] && b[i + 3] == e[3];
      assert Round(b, i, true) == (i + 2, [CR]);
      DecodeStep(b, i + 2, true);
      assert Round(b, i + 2, true) == (i + 4, [LF]);
    } else if |e| == 2 {
      assert b[i + 1] == e[1];
    }
  }

  lemma {:induction false} KeptEncoded(b: seq<int>, i: nat, s: seq<int>)
    requires IsText(s) && i <= |b| && b[i..] == EncodeAll(s, false)
    ensures DecodeFrom(b, i, true) == Lines(s)
    decreases |s|
  {
    hide Encode1, Lines1, Round, DecodeFrom;
    if s == [] {
      DecodeStep(b, i, true);
    } else {
      var e, r := Encode1(s[0], false), EncodeAll(s[1..], false);
      assert b[i..] == e + r;
      assert forall k :: 0 <= k < |e| ==> b[i + k] == b[i..][k] == e[k];
      assert b[i + |e|..] == r by {
        assert b[i + |e|..] == b[i..][|e|..];
      }
      Kept1(b, i, s[0]);
      KeptEncoded(b, i + |e|, s[1..]);
    }
  }

  /** Text mode ends every line on the way with a carriage return and a line feed: that is what
      a receiver gets that drops nothing. */
  lemma {:induction false} TextOnTheWay(s: seq<int>)
    requires IsText(s)
    ensures DecodeFrom(EncodeAll(s, false), 0, true) == Lines(s)
  {
    var b := EncodeAll(s, false);
    assert b[0..] == b;
    KeptEncoded(b, 0, s);
  }

  // ----- filling packets --------------------------------------------------------------

  /** The body of bufill's loop: the characters it stores for one byte of the file. */
  method StoreByte(buffer: seq<int>, byte: int, image: bool) returns (buffer': seq<int>)
    requires IsByte(byte)
    ensures buffer' == buffer + Encode1(byte, image)
  {
    var t, t7 := byte, byte % 128;
    buffer' := buffer;
    if t7 < SP || t7 == DEL || t7 == QUOTE {
      if t == LF && !image {
        buffer' := buffer' + [QUOTE];
        buffer' := buffer' + [Ctl(CR)];
      }
      buffer' := buffer' + [QUOTE];
      if t7 != QUOTE {
        t := Ctl(t);
        t7 := Ctl(t7);
      }
    }
    buffer' := buffer' + [if image then t else t7];
  }

  /** bufill: quote bytes of the file until the packet has spsiz - 8 characters; at the
      end of the file, whatever there is, or -1 (eof) for nothing at all. */
  method BufIll(file: seq<int>, pos: nat, spsiz: int, image: bool)
    returns (buffer: seq<int>, pos': nat, eof: bool)
    requires IsText(file) && pos <= |file|
    ensures pos <= pos' <= |file| && buffer == EncodeAll(file[pos..pos'], image)
    ensures eof <==> pos == |file|
    ensures pos' == pos <==> eof
    ensures |buffer| <= Most(spsiz)
    ensures pos' < |file| ==> |buffer| >= spsiz - 8
  {
    hide Encode1;
    buffer, pos' := [], pos;
    assert file[pos..pos] == [];
    while pos' < |file|
      invariant pos <= pos' <= |file| && buffer == EncodeAll(file[pos..pos'], image)
      invariant buffer == [] <==> pos' == pos
      invariant buffer != [] ==> |buffer| < spsiz - 8
      decreases |file| - pos'
    {
      var t := file[pos'];
      EncodeSnoc(file[pos..pos'], t, image);
      assert file[pos..pos' + 1] == file[pos..pos'] + [t];
      EncodeSize(t, image);
      buffer := StoreByte(buffer, t, image);
      pos' := pos' + 1;
      if |buffer| >= spsiz - 8 {
        return buffer, pos', false;
      }
    }
    return buffer, pos', buffer == [];
  }

  /** The longest data field bufill leaves in the packet. */
  function Most(spsiz: int): int { if spsiz > 9 then spsiz - 5 else 4 }

  /** What a receiver writes for the data fields it is given, in order. */
  ghost function Written(chunks: seq<seq<int>>, image: bool): seq<int> {
    if chunks == [] then []
    else Written(chunks[..|chunks| - 1], image) + DecodeFrom(chunks[|chunks| - 1], 0, image)
  }

  /** The data fields sfile and sdata send for one file: one per successful bufill, and
      for an empty file the one packet, without data, that sfile sends regardless. */
  method DataFields(file: seq<int>, spsiz: int, image: bool) returns (chunks: seq<seq<int>>)
    requires IsText(file)
    ensures Written(chunks, image) == Plain(file, image)
    ensures |chunks| >= 1
    ensures forall k :: 0 <= k < |chunks| ==> |chunks[k]| <= Most(spsiz)
    ensures forall k :: 0 <= k < |chunks| ==> chunks[k] == [] ==> file == []
  {
    hide Encode1, EncodeAll, Plain, DecodeFrom;
    var size, pos, eof := BufIll(file, 0, spsiz, image);
    chunks := [size];
    PlainNothing(image);
    Field(file, 0, pos, size, [], image);
    while !eof
      invariant 0 <= pos <= |file| && |chunks| >= 1
      invariant Written(chunks, image) == Plain(file[..pos], image)
      invariant eof ==> pos == |file|
      invariant forall k :: 0 <= k < |chunks| ==> |chunks[k]| <= Most(spsiz)
      invariant forall k :: 0 <= k < |chunks| ==> chunks[k] == [] ==> file == []
      decreases |file| - pos, !eof
    {
      ghost var was := pos;
      size, pos, eof := BufIll(file, pos, spsiz, image);
      if eof {
        break;
      }
      Field(file, was, pos, size, chunks, image);
      chunks := chunks + [size];
    }
    assert file[..pos] == file;
  }

  lemma {:induction false} PlainNothing(image: bool)
    ensures Plain([], image) == [] && EncodeAll([], image) == []
  {
  }

  lemma {:induction false} Field(file: seq<int>, from: nat, to: nat, b: seq<int>, chunks: seq<seq<int>>, image: bool)
    requires IsText(file) && from <= to <= |file| && b == EncodeAll(file[from..to], image)
    requires Written(chunks, image) == Plain(file[..from], image)
    ensures Written(chunks + [b], image) == Plain(file[..to], image)
    ensures from < to ==> b != []
  {
    hide Encode1, Plain, DecodeFrom;
    RoundTrip(file[from..to], image);
    PlainConcat(file[..from], file[from..to], image);
    assert file[..from] + file[from..to] == file[..to];
    assert (chunks + [b])[..|chunks|] == chunks;
    if from < to { EncodeSize(file[from..to][0], image); }
  }

  lemma {:induction false} EncodeSize(t: int, image: bool)
    requires IsByte(t)
    ensures 1 <= |Encode1(t, image)| <= 4
  {
  }

  lemma {:induction false} NoMark1(t: int, image: bool, k: nat)
    requires IsByte(t) && k < |Encode1(t, image)|
    ensures var c := Encode1(t, image)[k]; IsByte(c) && c % 128 >= SP && (!image ==> c < 128)
  {
    CtlBack(t);
    CtlBack(t % 128);
  }

  /** Nothing that bufill produces can be mistaken for a packet mark. */
  lemma {:induction false} NoMark(s: seq<int>, image: bool, k: nat)
    requires IsText(s) && k < |EncodeAll(s, image)|
    ensures var c := EncodeAll(s, image)[k]; IsByte(c) && c % 128 >= SP && (!image ==> c < 128)
    decreases |s|
  {
    hide Encode1;
    var e := Encode1(s[0], image);
    if k < |e| { NoMark1(s[0], image, k); } else { NoMark(s[1..], image, k - |e|); }
  }
}
