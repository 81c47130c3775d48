/** Kermit's packets: framing and checksum (spack, rpack in kermit.c), the format of
    chapter 6 of the Kermit Protocol Manual, sixth edition. */
module KermitPacket {
  import opened KermitData

  const SOH: int := 1

  /** tochar and unchar. */
  function ToChar(x: int): int { x + 32 }
  function UnChar(x: int): int { x - 32 }

  /** The sum of the covered characters, in a char, folded into six bits. */
  function Fold(sum: int): (r: int)
    ensures 0 <= r < 64
  {
    (sum / 64 % 4 + sum) % 64
  }

  /** Addition in a char. */
  function CharAdd(c: int, t: int): int { (c + t) % 256 }

  lemma {:induction false} CharAdd3(a: int, b: int, c: int)
    ensures CharAdd(CharAdd(CharAdd(0, a), b), c) == (a + b + c) % 256
  {
    var x := CharAdd(CharAdd(0, a), b);
    assert x == (a + b) % 256;
  }

  lemma {:induction false} CharAddMod(s: int, t: int)
    ensures CharAdd(s % 256, t) == (s + t) % 256
  {
  }

  ghost function Sum(s: seq<int>): int {
    if s == [] then 0 else Sum(s[..|s| - 1]) + s[|s| - 1]
  }

  lemma {:induction false} SumSnoc(s: seq<int>, t: int)
    ensures Sum(s + [t]) == Sum(s) + t
  {
    assert (s + [t])[..|s|] == s;
  }

  lemma {:induction false} FoldParts(a: int, b: int)
    requires 0 <= a < 4 && 0 <= b < 64
    ensures Fold(64 * a + b) == (a + b) % 64
  {
    assert (64 * a + b) / 64 == a;
  }

  function Power(bit: nat): int
    requires bit < 8
  {
    match bit case 0 => 1 case 1 => 2 case 2 => 4 case 3 => 8 case 4 => 16 case 5 => 32 case 6 => 64 case _ => 128
  }

  lemma {:induction false} OneBitUp(s: int, bit: nat)
    requires 0 <= s < 256 && bit < 8
    ensures Fold((s + Power(bit)) % 256) != Fold(s)
  {
    hide Fold;
    var a, b, d := s / 64, s % 64, Power(bit);
    FoldParts(a, b);
    var up := if bit == 6 then 1 else if bit == 7 then 2 else if b + d < 64 then 0 else 1;
    var a', b' := if a + up < 4 then a + up else a + up - 4, b + d - 64 * up;
    FoldParts(a', b');
    assert (s + d) % 256 == 64 * a' + b';
  }

  /** A power of two more or less in the sum always shows in the folded sum. */
  lemma {:induction false} OneBitInSum(sum: int, bit: nat)
    requires bit < 8
    ensures Fold((sum + Power(bit)) % 256) != Fold(sum % 256)
    ensures Fold((sum - Power(bit)) % 256) != Fold(sum % 256)
  {
    hide Fold, Power;
    var d := Power(bit);
    OneBitUp(sum % 256, bit);
    OneBitUp((sum - d) % 256, bit);
    Wrap(sum, d);
    Wrap(sum - d, d);
  }

  lemma {:induction false} Wrap(s: int, d: int)
    ensures (s % 256 + d) % 256 == (s + d) % 256
  {
  }

  // ----- sending -------------------------------------------------------------------

  /** A packet as spack is given it. */
  datatype Packet = Packet(kind: int, num: int, len: int, data: seq<int>)

  ghost predicate Sendable(p: Packet) {
    && IsByte(p.kind) && 32 <= p.kind < 127 && 0 <= p.num < 64
    && -1 <= p.len <= 91 && |p.data| == (if p.len > 0 then p.len else 0)
    && forall i :: 0 <= i < |p.data| ==> IsByte(p.data[i])
  }

  /** The characters the checksum covers. */
  ghost function Covered(p: Packet): seq<int> {
    [ToChar(p.len + 3), ToChar(p.num), p.kind] + p.data
  }

  ghost function CheckChar(p: Packet): int {
    ToChar(Fold(Sum(Covered(p)) % 256))
  }

  ghost function Frame(p: Packet, eol: int, mflg: bool): seq<int> {
    [SOH] + Covered(p) + [CheckChar(p)] + (if mflg then [eol, eol] else [eol])
  }

  /** spack: what it writes to the line, the padding apart from the 100-byte buffer. */
  method SPack(kind: int, num: int, len: int, data: seq<int>, pad: int, padchar: int, eol: int, mflg: bool)
    returns (padding: seq<int>, buffer: seq<int>)
    requires Sendable(Packet(kind, num, len, data))
    ensures |padding| == (if pad > 0 then pad else 0) && forall i :: 0 <= i < |padding| ==> padding[i] == padchar
    ensures buffer == Frame(Packet(kind, num, len, data), eol, mflg)
    ensures |buffer| <= 100
  {
    hide Sum, Fold, CharAdd;
    ghost var p := Packet(kind, num, len, data);
    padding := Pads(pad, padchar);
    buffer := [SOH];
    var chksum := CharAdd(0, ToChar(len + 3));
    buffer := buffer + [ToChar(len + 3)];
    chksum := CharAdd(chksum, ToChar(num));
    buffer := buffer + [ToChar(num)];
    chksum := CharAdd(chksum, kind);
    CharAdd3(ToChar(len + 3), ToChar(num), kind);
    buffer := buffer + [kind];
    HeaderSum(p);
    var i := 0;
    while i < len
      invariant 0 <= i <= |data| && (i <= len || i == 0)
      invariant buffer == [SOH] + Covered(p)[..i + 3]
      invariant chksum == Sum(Covered(p)[..i + 3]) % 256
    {
      SumSnoc(Covered(p)[..i + 3], data[i]);
      assert Covered(p)[..i + 4] == Covered(p)[..i + 3] + [data[i]];
      buffer := buffer + [data[i]];
      CharAddMod(Sum(Covered(p)[..i + 3]), data[i]);
      chksum := CharAdd(chksum, data[i]);
      i := i + 1;
    }
    assert Covered(p)[..i + 3] == Covered(p);
    chksum := Fold(chksum);
    buffer := buffer + [ToChar(chksum)];
    if mflg {
      buffer := buffer + [eol];
    }
    buffer := buffer + [eol];
  }

  method Pads(pad: int, padchar: int) returns (padding: seq<int>)
    ensures |padding| == (if pad > 0 then pad else 0) && forall i :: 0 <= i < |padding| ==> padding[i] == padchar
  {
    padding := [];
    var i := 1;
    while i <= pad
      invariant 1 <= i && (i <= pad + 1 || i == 1) && |padding| == i - 1
      invariant forall k :: 0 <= k < |padding| ==> padding[k] == padchar
    {
      padding := padding + [padchar];
      i := i + 1;
    }
  }

  lemma {:induction false} HeaderSum(p: Packet)
    ensures Covered(p)[..3] == [ToChar(p.len + 3), ToChar(p.num), p.kind]
    ensures Sum(Covered(p)[..3]) == ToChar(p.len + 3) + ToChar(p.num) + p.kind
  {
    var c := Covered(p);
    assert c[..1] == [] + [c[0]] && c[..2] == c[..1] + [c[1]] && c[..3] == c[..2] + [c[2]];
    SumSnoc([], c[0]);
    SumSnoc(c[..1], c[1]);
    SumSnoc(c[..2], c[2]);
  }

  // ----- receiving -----------------------------------------------------------------

  /** What rpack hands back: FALSE, or the type with *num, *len and the data buffer. */
  datatype Reply = False | Got(kind: int, num: int, len: int, data: map<int, int>)

  /** A character as rpack takes it: text mode drops the parity bit. */
  function Mask(t: int, image: bool): int { if image then t else t % 128 }

  predicate IsMark(line: seq<int>, i: nat, image: bool) { i < |line| && Mask(line[i], image) == SOH }

  /** Where the first mark is, whatever its parity; |line| if there is none. */
  function FirstMark(line: seq<int>, i: nat): (k: nat)
    requires i <= |line|
    ensures i <= k <= |line| && (k < |line| ==> line[k] % 128 == SOH)
    decreases |line| - i
  {
    if i == |line| || line[i] % 128 == SOH then i else FirstMark(line, i + 1)
  }

  /** The length that the header at i gives, and the number of characters read for it. */
  function Length(line: seq<int>, i: nat, image: bool): int
    requires i < |line|
  {
    UnChar(Mask(line[i], image)) - 3
  }

  function Wanted(line: seq<int>, i: nat, image: bool): nat
    requires i < |line|
  {
    if Length(line, i, image) > 0 then Length(line, i, image) else 0
  }

  /** No mark in the header at i, and the line goes on to the character behind the checksum. */
  predicate Whole(line: seq<int>, i: nat, image: bool) {
    && i + 3 <= |line| && !IsMark(line, i, image) && !IsMark(line, i + 1, image) && !IsMark(line, i + 2, image)
    && i + Wanted(line, i, image) + 5 <= |line|
  }

  /** Which header rpack, just behind a mark at i, decides on: a mark in a header, or in place
      of the end of line, makes it start over.  |line| if the line ends first. */
  function Scan(line: seq<int>, i: nat, image: bool): (h: nat)
    ensures h < |line| ==> i <= h && Whole(line, h, image)
    decreases |line| - i
  {
    if i >= |line| then |line|
    else if IsMark(line, i, image) then Scan(line, i + 1, image)
    else if IsMark(line, i + 1, image) then Scan(line, i + 2, image)
    else if IsMark(line, i + 2, image) then Scan(line, i + 3, image)
    else if !Whole(line, i, image) then |line|
    else if IsMark(line, i + Wanted(line, i, image) + 4, image) then Scan(line, i + Wanted(line, i, image) + 5, image)
    else i
  }

  /** What n characters from i on add to the checksum: marks are skipped. */
  function ReadSum(line: seq<int>, i: nat, n: nat, image: bool): int
    requires i + n <= |line|
  {
    if n == 0 then 0
    else ReadSum(line, i, n - 1, image) + if IsMark(line, i + n - 1, image) then 0 else Mask(line[i + n - 1], image)
  }

  /** The header at i is accepted: the character behind the data is the checksum. */
  predicate Accepted(line: seq<int>, i: nat, image: bool)
    requires Whole(line, i, image)
  {
    var n := Wanted(line, i, image) + 3;
    UnChar(line[i + n]) == Fold(ReadSum(line, i, n, image) % 256)
  }

  /** rpack decides on the header at i, and refuses it. */
  predicate Refuses(line: seq<int>, i: nat, image: bool) {
    Scan(line, FirstMark(line, 0) + 1, image) == i && Whole(line, i, image) && !Accepted(line, i, image)
  }

  /** The data that the header at i is followed by; where there is a mark the buffer keeps what
      it had. */
  ghost predicate DataFrom(line: seq<int>, i: nat, image: bool, data: map<int, int>)
    requires Whole(line, i, image)
  {
    forall k: nat {:trigger data[k]} {:trigger k in data} ::
      k < Wanted(line, i, image) && !IsMark(line, i + 3 + k, image) ==>
        k in data && data[k] == Mask(line[i + 3 + k], image)
  }

  /** Has the step read what it wanted, met a mark, or run into the alarm? */
  datatype Progress = Done | Mark | Alarm

  /** The three header characters; sum is the checksum so far. */
  method ReadHeader(line: seq<int>, start: nat, image: bool)
    returns (s: Progress, pos: nat, kind: int, num: int, len: int, sum: int)
    requires start <= |line|
    ensures start <= pos <= |line|
    ensures s == Alarm ==> Scan(line, start, image) == |line|
    ensures s == Mark ==> start < pos && Scan(line, start, image) == Scan(line, pos, image)
    ensures s == Done ==>
      && pos == start + 3 && !IsMark(line, start, image) && !IsMark(line, start + 1, image)
      && !IsMark(line, start + 2, image)
      && len == Length(line, start, image) && num == UnChar(Mask(line[start + 1], image))
      && kind == Mask(line[start + 2], image) && sum == ReadSum(line, start, 3, image) % 256
  {
    hide CharAdd;
    pos, kind, num, len, sum := start, 0, 0, 0, 0;
    if pos == |line| { return Alarm, pos, kind, num, len, sum; }
    var t := Mask(line[pos], image);
    pos := pos + 1;
    if t == SOH { return Mark, pos, kind, num, len, sum; }
    sum := CharAdd(0, t);
    len := UnChar(t) - 3;

    if pos == |line| { return Alarm, pos, kind, num, len, sum; }
    t := Mask(line[pos], image);
    pos := pos + 1;
    if t == SOH { return Mark, pos, kind, num, len, sum; }
    sum := CharAdd(sum, t);
    num := UnChar(t);

    if pos == |line| { return Alarm, pos, kind, num, len, sum; }
    t := Mask(line[pos], image);
    pos := pos + 1;
    if t == SOH { return Mark, pos, kind, num, len, sum; }
    CharAdd3(Mask(line[start], image), Mask(line[start + 1], image), t);
    SumOfThree(line, start, image);
    sum := CharAdd(sum, t);
    kind := t;
    return Done, pos, kind, num, len, sum;
  }

  lemma {:induction false} SumOfThree(line: seq<int>, i: nat, image: bool)
    requires i + 3 <= |line| && !IsMark(line, i, image) && !IsMark(line, i + 1, image) && !IsMark(line, i + 2, image)
    ensures ReadSum(line, i, 3, image) == Mask(line[i], image) + Mask(line[i + 1], image) + Mask(line[i + 2], image)
  {
    assert ReadSum(line, i, 1, image) == Mask(line[i], image);
    SumOneMore(line, i, 1, image);
    SumOneMore(line, i, 2, image);
  }

  /** The loop over the data.  A mark among the data is skipped, and counted. */
  method DataField(line: seq<int>, start: nat, len: int, sum: int, image: bool, stale: map<int, int>)
    returns (data: map<int, int>, cchksum: int, pos: nat, alarm: bool)
    requires 3 <= start <= |line| && sum == ReadSum(line, start - 3, 3, image) % 256
    ensures start <= pos <= |line|
    ensures alarm <==> len > 0 && start + len > |line|
    ensures !alarm ==> pos == start + (if len > 0 then len else 0)
    ensures !alarm ==> cchksum == ReadSum(line, start - 3, pos - start + 3, image) % 256
    ensures !alarm ==>
      forall k: nat {:trigger data[k]} {:trigger k in data} :: k < len && !IsMark(line, start + k, image) ==>
      k in data && data[k] == Mask(line[start + k], image)
  {
    hide CharAdd, ReadSum;
    data, cchksum, pos, alarm := stale, sum, start, false;
    var i := 0;
    while i < len
      invariant 0 <= i && (i <= len || i == 0) && pos == start + i <= |line|
      invariant cchksum == ReadSum(line, start - 3, i + 3, image) % 256
      invariant forall k: nat {:trigger data[k]} {:trigger k in data} :: k < i && !IsMark(line, start + k, image) ==>
        k in data && data[k] == Mask(line[start + k], image)
    {
      if pos == |line| {
        alarm := true;
        return;
      }
      SumOneMore(line, start - 3, i + 3, image);
      assert start - 3 + (i + 3) == pos && i + 3 + 1 == i + 1 + 3;
      CharAddMod(ReadSum(line, start - 3, i + 3, image), Mask(line[pos], image));
      var t := Mask(line[pos], image);
      pos := pos + 1;
      if t == SOH {
        i := i + 1;
        continue;
      }
      cchksum := CharAdd(cchksum, t);
      data := data[i := t];
      i := i + 1;
    }
    assert pos - start + 3 == i + 3;
  }

  lemma {:induction false} SumOneMore(line: seq<int>, i: nat, n: nat, image: bool)
    requires i + n < |line|
    ensures ReadSum(line, i, n + 1, image) ==
      ReadSum(line, i, n, image) + if IsMark(line, i + n, image) then 0 else Mask(line[i + n], image)
  {
  }

  /** The first loop of rpack: just behind the first mark, or beyond the end if there is none. */
  method SkipNoise(line: seq<int>) returns (pos: nat)
    ensures pos == FirstMark(line, 0) + 1
  {
    pos := 0;
    var t := 0;
    while t != SOH
      invariant 0 <= pos <= |line|
      invariant if t == SOH then pos == FirstMark(line, 0) + 1 else FirstMark(line, pos) == FirstMark(line, 0)
      decreases |line| - pos, t != SOH
    {
      if pos == |line| { return pos + 1; }
      t := line[pos] % 128;
      pos := pos + 1;
    }
  }

  /** rpack on the characters that come before its alarm: those left unread start at next.  It
      gives up if there is no whole header; and it accepts the one it decides on if and only
      if the character behind the data is the folded sum. */
  method RPack(line: seq<int>, image: bool, stale: map<int, int>) returns (r: Reply, next: nat)
    ensures next <= |line|
    ensures var h := Scan(line, FirstMark(line, 0) + 1, image);
      && (h >= |line| ==> r.False?)
      && (h < |line| ==>
            && next == h + Wanted(line, h, image) + 5
            && (r.Got? <==> Accepted(line, h, image))
            && (r.Got? ==> r.len == Length(line, h, image) && r.num == UnChar(Mask(line[h + 1], image)))
            && (r.Got? ==> r.kind == Mask(line[h + 2], image) && DataFrom(line, h, image, r.data)))
  {
    hide ReadSum, Scan, Fold, FirstMark;
    var pos := SkipNoise(line);
    ScanEnd(line, |line| + 1, image);
    if pos > |line| { return False, |line|; }
    var t;
    var data := stale;
    while true
      invariant 0 <= pos <= |line|
      invariant Scan(line, pos, image) == Scan(line, FirstMark(line, 0) + 1, image)
      decreases |line| - pos
    {
      var h := pos;
      var s, pos', kind, num, len, cchksum := ReadHeader(line, pos, image);
      pos := pos';
      if s == Alarm { return False, pos; }
      if s == Mark { continue; }

      ScanDone(line, h, image);
      var alarm := false;
      data, cchksum, pos, alarm := DataField(line, pos, len, cchksum, image, data);
      if alarm { return False, pos; }
      data := data[len := 0];

      if pos == |line| { return False, pos; }
      var rchksum := UnChar(line[pos]);
      pos := pos + 1;
      if pos == |line| { return False, pos; }
      t := Mask(line[pos], image);
      pos := pos + 1;
      if t == SOH { continue; }
      cchksum := Fold(cchksum);
      if cchksum != rchksum { return False, pos; }
      return Got(kind, num, len, data), pos;
    }
  }

  lemma {:induction false} ScanEnd(line: seq<int>, i: nat, image: bool)
    requires i >= |line|
    ensures Scan(line, i, image) == |line|
  {
  }

  lemma {:induction false} ScanDone(line: seq<int>, i: nat, image: bool)
    requires i + 3 <= |line| && !IsMark(line, i, image) && !IsMark(line, i + 1, image) && !IsMark(line, i + 2, image)
    ensures Scan(line, i, image) ==
      if !Whole(line, i, image) then |line|
      else if IsMark(line, i + Wanted(line, i, image) + 4, image) then Scan(line, i + Wanted(line, i, image) + 5, image)
      else i
  {
  }

  // ----- an intact packet --------------------------------------------------------------

  /** From position i, just behind a mark, the header fragments on the line lead to the
      mark at position at: a mark inside a header starts over. */
  ghost predicate Leads(line: seq<int>, i: nat, at: nat, image: bool)
    requires at < |line|
    decreases |line| - i
  {
    i == at + 1
    || (IsMark(line, i, image) && Leads(line, i + 1, at, image))
    || (!IsMark(line, i, image) && IsMark(line, i + 1, image) && Leads(line, i + 2, at, image))
    || (!IsMark(line, i, image) && !IsMark(line, i + 1, image) && IsMark(line, i + 2, image)
        && Leads(line, i + 3, at, image))
  }

  /** The line carries packet p from the mark at position at: the parity of the covered
      characters may be anything in text mode; that of the checksum may not. */
  ghost predicate Carries(line: seq<int>, at: nat, p: Packet, image: bool) {
    var c := Covered(p);
    && at + |c| + 2 < |line|
    && (forall k {:trigger c[k]} :: 0 <= k < |c| ==> Mask(line[at + 1 + k], image) == c[k] && c[k] != SOH)
    && line[at + 1 + |c|] == CheckChar(p)
    && !IsMark(line, at + |c| + 2, image)
  }

  /** The line leads, past noise without a mark and headers cut short, to packet p. */
  ghost predicate Arrives(line: seq<int>, noise: nat, at: nat, p: Packet, image: bool) {
    && noise <= at < |line|
    && (forall k :: 0 <= k < noise ==> line[k] % 128 != SOH)
    && line[noise] % 128 == SOH
    && Leads(line, noise + 1, at, image)
    && Carries(line, at, p, image)
  }

  lemma {:induction false} MarkAt(line: seq<int>, i: nat, noise: nat)
    requires i <= noise < |line| && line[noise] % 128 == SOH && forall k :: i <= k < noise ==> line[k] % 128 != SOH
    ensures FirstMark(line, i) == noise
    decreases noise - i
  {
    if i < noise { MarkAt(line, i + 1, noise); }
  }

  lemma {:induction false} ScanLeads(line: seq<int>, i: nat, at: nat, image: bool)
    requires at < |line| && Leads(line, i, at, image) && at + 3 < |line|
    ensures Scan(line, i, image) == Scan(line, at + 1, image)
    decreases |line| - i
  {
    if i != at + 1 {
      if IsMark(line, i, image) { ScanLeads(line, i + 1, at, image); }
      else if IsMark(line, i + 1, image) { ScanLeads(line, i + 2, at, image); }
      else { ScanLeads(line, i + 3, at, image); }
    }
  }

  lemma {:induction false} SumCovered(line: seq<int>, at: nat, p: Packet, n: nat, image: bool)
    requires Carries(line, at, p, image) && n <= |Covered(p)|
    ensures ReadSum(line, at + 1, n, image) == Sum(Covered(p)[..n])
  {
    hide Covered, CheckChar;
    if n > 0 {
      SumCovered(line, at, p, n - 1, image);
      var c := Covered(p);
      SumSnoc(c[..n - 1], c[n - 1]);
      assert c[..n] == c[..n - 1] + [c[n - 1]];
      assert Mask(line[at + 1 + (n - 1)], image) == c[n - 1] != SOH;
    }
  }

  lemma {:induction false} CarriesHeader(line: seq<int>, at: nat, p: Packet, image: bool)
    requires Sendable(p) && Carries(line, at, p, image)
    ensures Whole(line, at + 1, image) && Wanted(line, at + 1, image) + 3 == |Covered(p)|
    ensures Length(line, at + 1, image) == p.len
    ensures Mask(line[at + 2], image) == ToChar(p.num) && Mask(line[at + 3], image) == p.kind
  {
    var c := Covered(p);
    assert c[0] == ToChar(p.len + 3) && c[1] == ToChar(p.num) && c[2] == p.kind;
    assert Mask(line[at + 1 + 0], image) == c[0] && Mask(line[at + 1 + 1], image) == c[1];
    assert Mask(line[at + 1 + 2], image) == c[2];
  }

  lemma {:induction false} CarriesCheck(line: seq<int>, at: nat, p: Packet, image: bool)
    requires Carries(line, at, p, image)
    ensures at + |Covered(p)| + 2 < |line| && UnChar(line[at + 1 + |Covered(p)|]) == Fold(Sum(Covered(p)) % 256)
    ensures !IsMark(line, at + |Covered(p)| + 2, image)
  {
    hide Fold, Sum, Covered;
  }

  /** From position i on rpack reads data. */
  ghost predicate Reads(line: seq<int>, i: nat, data: seq<int>, image: bool) {
    && i + |data| <= |line|
    && forall k {:trigger data[k]} :: 0 <= k < |data| ==> data[k] == Mask(line[i + k], image) != SOH
  }

  lemma {:induction false} DataCarried(line: seq<int>, at: nat, p: Packet, image: bool)
    requires Carries(line, at, p, image)
    ensures Reads(line, at + 4, p.data, image)
  {
    hide Fold, Sum;
    var c := Covered(p);
    forall k {:trigger p.data[k]} | 0 <= k < |p.data| ensures p.data[k] == Mask(line[at + 4 + k], image) != SOH {
      assert c[3 + k] == p.data[k];
      assert Mask(line[at + 1 + (3 + k)], image) == c[3 + k];
    }
  }

  /** An intact packet is the one that rpack decides on and accepts, with the type, number,
      length and data that were sent. */
  lemma {:induction false} IntactIsAccepted(line: seq<int>, noise: nat, at: nat, p: Packet, image: bool)
    requires Sendable(p) && Arrives(line, noise, at, p, image)
    ensures Scan(line, FirstMark(line, 0) + 1, image) == at + 1
    ensures Whole(line, at + 1, image) && Accepted(line, at + 1, image)
    ensures Wanted(line, at + 1, image) + 3 == |Covered(p)|
    ensures Length(line, at + 1, image) == p.len && UnChar(Mask(line[at + 2], image)) == p.num
    ensures Mask(line[at + 3], image) == p.kind
    ensures Reads(line, at + 4, p.data, image)
  {
    hide Fold, Sum, Scan, ReadSum, Leads, Reads, Carries, Covered, Whole, Wanted, Length;
    MarkAt(line, 0, noise);
    CarriesHeader(line, at, p, image);
    CarriesCheck(line, at, p, image);
    ScanLeads(line, noise + 1, at, image);
    WholeHeader(line, at + 1, image);
    ScanDone(line, at + 1, image);
    var c := Covered(p);
    SumCovered(line, at, p, |c|, image);
    assert c[..|c|] == c;
    DataCarried(line, at, p, image);
  }

  // ----- a damaged packet --------------------------------------------------------------

  /** line' is line but for the number, the type and the data of packet p, and its number and
      type are no marks. */
  ghost predicate Damaged(line: seq<int>, line': seq<int>, at: nat, p: Packet, image: bool) {
    && |line'| == |line| && !IsMark(line', at + 2, image) && !IsMark(line', at + 3, image)
    && forall x {:trigger line'[x]} :: 0 <= x < |line| && !(at + 2 <= x <= at + |Covered(p)|) ==> line'[x] == line[x]
  }

  lemma {:induction false} LeadsBack(line: seq<int>, i: nat, at: nat, image: bool)
    requires at < |line| && Leads(line, i, at, image)
    ensures i <= at + 1
    decreases |line| - i
  {
    if i != at + 1 {
      if IsMark(line, i, image) { LeadsBack(line, i + 1, at, image); }
      else if IsMark(line, i + 1, image) { LeadsBack(line, i + 2, at, image); }
      else { LeadsBack(line, i + 3, at, image); }
    }
  }

  lemma {:induction false} LeadsSame(line: seq<int>, line': seq<int>, i: nat, at: nat, image: bool)
    requires at < |line| == |line'| && Leads(line, i, at, image)
    requires forall x {:trigger line'[x]} :: 0 <= x <= at ==> line'[x] == line[x]
    ensures Leads(line', i, at, image)
    decreases |line| - i
  {
    LeadsBack(line, i, at, image);
    if i != at + 1 {
      if IsMark(line, i, image) {
        LeadsSame(line, line', i + 1, at, image);
      } else if IsMark(line, i + 1, image) {
        LeadsBack(line, i + 2, at, image);
        LeadsSame(line, line', i + 2, at, image);
      } else {
        LeadsBack(line, i + 3, at, image);
        LeadsSame(line, line', i + 3, at, image);
      }
    }
  }

  /** A packet with damage behind its length character is still the one that rpack decides on,
      and is accepted if and only if the characters read fold to the same checksum. */
  lemma {:induction false} DamageAccepted(line: seq<int>, line': seq<int>, noise: nat, at: nat, p: Packet, image: bool)
    requires Sendable(p) && Arrives(line, noise, at, p, image) && Damaged(line, line', at, p, image)
    ensures Scan(line', FirstMark(line', 0) + 1, image) == at + 1
    ensures Whole(line', at + 1, image) && Wanted(line', at + 1, image) + 3 == |Covered(p)|
    ensures Accepted(line', at + 1, image) <==>
      Fold(ReadSum(line', at + 1, |Covered(p)|, image) % 256) == Fold(Sum(Covered(p)) % 256)
  {
    hide Fold, Sum, Scan, ReadSum, Leads;
    CarriesHeader(line, at, p, image);
    MarkAt(line', 0, noise);
    LeadsSame(line, line', noise + 1, at, image);
    assert line'[at + 1] == line[at + 1];
    ScanLeads(line', noise + 1, at, image);
    ScanDone(line', at + 1, image);
    assert at + 1 + Wanted(line', at + 1, image) + 4 == at + |Covered(p)| + 2;
    assert line'[at + |Covered(p)| + 2] == line[at + |Covered(p)| + 2];
    assert line'[at + 1 + |Covered(p)|] == CheckChar(p);
  }

  /** A character with one bit changed: bit 7 is the parity. */
  function Flip(t: int, bit: nat): int
    requires bit < 8
  {
    if bit == 7 then (if t / 128 % 2 == 1 then t - 128 else t + 128)
    else t - t % 128 + LowFlip(t % 128, Power(bit))
  }

  function LowFlip(b: int, d: int): int
    requires d > 0
  {
    if b / d % 2 == 1 then b - d else b + d
  }

  lemma {:induction false} LowFlipIn(b: int, bit: nat)
    requires bit < 7 && 0 <= b < 128
    ensures 0 <= LowFlip(b, Power(bit)) < 128
  {
    var d := Power(bit);
    if b / d % 2 == 0 && b + d >= 128 { LastHalf(b, bit); }
  }

  lemma {:induction false} LastHalf(b: int, bit: nat)
    requires bit < 7 && 0 <= b < 128 && b + Power(bit) >= 128
    ensures b / Power(bit) % 2 == 1
  {
    match bit
    case 0 => assert b / 1 == 127;
    case 1 => assert b / 2 == 63;
    case 2 => assert b / 4 == 31;
    case 3 => assert b / 8 == 15;
    case 4 => assert b / 16 == 7;
    case 5 => assert b / 32 == 3;
    case _ => assert b / 64 == 1;
  }

  /** rpack sees the change, unless it is of the parity in text mode. */
  lemma {:induction false} FlipSeen(t: int, bit: nat, image: bool)
    requires bit < 8 && 0 <= t < 256
    ensures var m, m' := Mask(t, image), Mask(Flip(t, bit), image);
      if bit == 7 && !image then m' == m else m' == m - Power(bit) || m' == m + Power(bit)
  {
    if !image {
      if bit == 7 {
        assert (t - 128) % 128 == t % 128 == (t + 128) % 128;
      } else {
        LowFlipIn(t % 128, bit);
        HighPart(t / 128, LowFlip(t % 128, Power(bit)));
      }
    }
  }

  lemma {:induction false} HighPart(a: int, b: int)
    requires 0 <= b < 128
    ensures (128 * a + b) % 128 == b
  {
  }

  function Worth(t: int, image: bool): int { if Mask(t, image) == SOH then 0 else Mask(t, image) }

  lemma {:induction false} SumChanged(line: seq<int>, i: nat, n: nat, x: nat, t: int, image: bool)
    requires i <= x < |line| && i + n <= |line|
    ensures ReadSum(line[x := t], i, n, image) ==
      ReadSum(line, i, n, image) + if x < i + n then Worth(t, image) - Worth(line[x], image) else 0
  {
    if n > 0 { SumChanged(line, i, n - 1, x, t, image); }
  }

  lemma {:induction false} LossParts(a: int, b: int, d: int)
    requires 0 <= a < 4 && 0 <= b < 64 && (d == 33 || d == 65)
    ensures Fold((64 * a + b - d) % 256) != Fold(64 * a + b)
  {
    hide Fold;
    FoldParts(a, b);
    var b' := if d == 33 then (if b >= 33 then b - 33 else b + 31) else if b >= 1 then b - 1 else 63;
    var c := if d == 33 then (if b >= 33 then a else a - 1) else if b >= 1 then a - 1 else a - 2;
    var a' := if c >= 0 then c else c + 4;
    assert 64 * a + b - d == 64 * c + b';
    FoldParts(a', b');
    assert (64 * a + b - d) % 256 == 64 * a' + b';
  }

  /** The loss of '!' or 'A', which one bit turns into a mark, shows in the folded sum. */
  lemma {:induction false} LossInSum(sum: int, d: int)
    requires d == 33 || d == 65
    ensures Fold((sum - d) % 256) != Fold(sum % 256)
  {
    hide Fold;
    var s := sum % 256;
    LossParts(s / 64, s % 64, d);
    Wrap(sum, -d);
  }

  /** Characters as bufill makes them. */
  predicate Plain(s: seq<int>) { forall k {:trigger s[k]} :: 0 <= k < |s| ==> s[k] % 128 >= SP }

  lemma {:induction false} FlipToMark(m: int, bit: nat)
    requires bit < 8 && 0 <= m < 256 && m % 128 >= SP && (SOH == m - Power(bit) || SOH == m + Power(bit))
    ensures m == 33 || m == 65
  {
  }

  /** The covered character x as rpack reads it, in an intact packet of quoted data. */
  lemma {:induction false} CoveredChar(line: seq<int>, at: nat, p: Packet, image: bool, x: nat)
    requires Sendable(p) && Plain(p.data) && Carries(line, at, p, image) && at + 2 <= x <= at + |Covered(p)|
    ensures x < |line| && Mask(line[x], image) % 128 >= SP && Mask(line[x], image) != SOH
  {
    hide Sum, Fold;
    var c := Covered(p);
    var k := x - at - 1;
    assert c[k] == Mask(line[at + 1 + k], image);
    if k >= 3 { assert c[k] == p.data[k - 3]; }
  }

  /** One bit changed in the number, the type, the data or the checksum of a packet of quoted
      data, without making the number or the type a mark: if rpack looks at the bit at all it
      refuses the packet; it does not at the parity, in text mode, of what is covered. */
  lemma {:induction false} OneBitIsNoticed(line: seq<int>, noise: nat, at: nat, p: Packet, image: bool, x: nat,
                                           bit: nat)
    requires Sendable(p) && Plain(p.data) && Arrives(line, noise, at, p, image) && bit < 8
    requires at + 2 <= x <= at + |Covered(p)| + 1 && IsByte(line[x])
    requires x <= at + 3 ==> Mask(Flip(line[x], bit), image) != SOH
    ensures var line' := line[x := Flip(line[x], bit)];
      if x <= at + |Covered(p)| && bit == 7 && !image then Arrives(line', noise, at, p, image)
      else Refuses(line', at + 1, image)
  {
    hide Fold, Sum, Scan, ReadSum, Leads, Covered, Flip;
    var line' := line[x := Flip(line[x], bit)];
    FlipSeen(line[x], bit, image);
    if x > at + |Covered(p)| {
      CheckFlipped(line, noise, at, p, image, bit);
    } else if bit == 7 && !image {
      ParityFlipped(line, line', noise, at, p, x);
    } else {
      CoveredFlipped(line, noise, at, p, image, x, bit);
    }
  }

  lemma {:induction false} ParityFlipped(line: seq<int>, line': seq<int>, noise: nat, at: nat, p: Packet, x: nat)
    requires Arrives(line, noise, at, p, false) && at + 2 <= x <= at + |Covered(p)|
    requires |line'| == |line| && Mask(line'[x], false) == Mask(line[x], false)
    requires forall y {:trigger line'[y]} :: 0 <= y < |line| && y != x ==> line'[y] == line[y]
    ensures Arrives(line', noise, at, p, false)
  {
    hide Sum, Fold, Covered, CheckChar, Leads;
    LeadsSame(line, line', noise + 1, at, false);
    var c := Covered(p);
    forall k {:trigger c[k]} | 0 <= k < |c| ensures Mask(line'[at + 1 + k], false) == c[k] && c[k] != SOH {
      assert Mask(line[at + 1 + k], false) == c[k];
      if at + 1 + k != x { assert line'[at + 1 + k] == line[at + 1 + k]; }
    }
    assert line'[at + 1 + |c|] == line[at + 1 + |c|] && line'[at + |c| + 2] == line[at + |c| + 2];
    assert line'[noise] == line[noise];
  }

  /** Another character in place of the checksum. */
  lemma {:induction false} OtherCheck(line: seq<int>, i: nat, t: int, image: bool)
    requires Whole(line, i, image)
    ensures var x := i + Wanted(line, i, image) + 3;
      var line' := line[x := t];
      && Whole(line', i, image) && Wanted(line', i, image) == Wanted(line, i, image)
      && (Accepted(line', i, image) <==> UnChar(t) == Fold(ReadSum(line, i, x - i, image) % 256))
  {
    hide Fold, ReadSum;
    var x := i + Wanted(line, i, image) + 3;
    SumChanged(line, i, x - i, x, t, image);
    assert line[x := t][i] == line[i];
  }

  lemma {:induction false} CheckFlipped(line: seq<int>, noise: nat, at: nat, p: Packet, image: bool, bit: nat)
    requires Sendable(p) && Arrives(line, noise, at, p, image) && bit < 8
    ensures var x := at + |Covered(p)| + 1;
      var line' := line[x := Flip(line[x], bit)];
      Refuses(line', at + 1, image)
  {
    hide Fold, Sum, Scan, ReadSum, Leads, Covered, CheckChar, Whole, Wanted, Flip;
    var x := at + |Covered(p)| + 1;
    var line' := line[x := Flip(line[x], bit)];
    IntactIsAccepted(line, noise, at, p, image);
    OtherCheck(line, at + 1, Flip(line[x], bit), image);
    FlipDiffers(line[x], bit);
    MarkAt(line', 0, noise);
    LeadsSame(line, line', noise + 1, at, image);
    ScanLeads(line', noise + 1, at, image);
    WholeHeader(line', at + 1, image);
    ScanDone(line', at + 1, image);
  }

  lemma {:induction false} FlipDiffers(t: int, bit: nat)
    requires bit < 8
    ensures Flip(t, bit) != t
  {
  }

  lemma {:induction false} WholeHeader(line: seq<int>, i: nat, image: bool)
    requires Whole(line, i, image)
    ensures i + 3 <= |line| && !IsMark(line, i, image) && !IsMark(line, i + 1, image) && !IsMark(line, i + 2, image)
  {
  }

  lemma {:induction false} CoveredFlipped(line: seq<int>, noise: nat, at: nat, p: Packet, image: bool, x: nat, bit: nat)
    requires Sendable(p) && Plain(p.data) && Arrives(line, noise, at, p, image) && bit < 8 && (bit < 7 || image)
    requires at + 2 <= x <= at + |Covered(p)| && IsByte(line[x])
    requires x <= at + 3 ==> Mask(Flip(line[x], bit), image) != SOH
    ensures var line' := line[x := Flip(line[x], bit)];
      Refuses(line', at + 1, image)
  {
    hide Fold, Sum, Scan, ReadSum, Leads, Covered, Flip, Power;
    var line' := line[x := Flip(line[x], bit)];
    var c := Covered(p);
    var m, m' := Mask(line[x], image), Mask(Flip(line[x], bit), image);
    FlipSeen(line[x], bit, image);
    CoveredChar(line, at, p, image, x);
    CarriesHeader(line, at, p, image);
    assert Damaged(line, line', at, p, image);
    DamageAccepted(line, line', noise, at, p, image);
    SumCovered(line, at, p, |c|, image);
    assert c[..|c|] == c;
    SumChanged(line, at + 1, |c|, x, Flip(line[x], bit), image);
    if m' == SOH {
      FlipToMark(m, bit);
      LossInSum(Sum(c), m);
    } else {
      OneBitInSum(Sum(c), bit);
    }
  }

  /** Two characters that have changed places are accepted: AB goes out, BA comes in. */
  lemma {:induction false} SwapIsAccepted(image: bool)
    ensures var p := Packet(68, 0, 2, [65, 66]);
      var line' := [1, 37, 32, 68, 66, 65, 44, 13];
      && Sendable(p) && Frame(p, 13, false) == [1, 37, 32, 68, 65, 66, 44, 13]
      && Scan(line', FirstMark(line', 0) + 1, image) == 1 && Whole(line', 1, image) && Accepted(line', 1, image)
      && Reads(line', 4, [66, 65], image)
  {
    hide Scan, Accepted, Whole, Arrives, Fold, Frame;
    var q := Packet(68, 0, 2, [66, 65]);
    FrameOfTwo(65, 66);
    FrameOfTwo(66, 65);
    FoldParts(0, 12);
    ShortArrives(q, image);
    IntactIsAccepted(Frame(q, 13, false), 0, 0, q, image);
  }

  lemma {:induction false} FrameOfTwo(a: int, b: int)
    requires 32 <= a < 127 && 32 <= b < 127
    ensures Frame(Packet(68, 0, 2, [a, b]), 13, false) == [1, 37, 32, 68, a, b, ToChar(Fold((137 + a + b) % 256)), 13]
  {
    hide Fold;
    var c := Covered(Packet(68, 0, 2, [a, b]));
    HeaderSum(Packet(68, 0, 2, [a, b]));
    assert c == c[..3] + [a] + [b];
    SumSnoc(c[..3], a);
    SumSnoc(c[..3] + [a], b);
  }

  /** A frame of plain characters alone on the line. */
  lemma {:induction false} ShortArrives(p: Packet, image: bool)
    requires Sendable(p) && forall k {:trigger p.data[k]} :: 0 <= k < |p.data| ==> 32 <= p.data[k] < 127
    ensures Arrives(Frame(p, 13, false), 0, 0, p, image)
  {
    hide Sum, Fold;
    var line, c := Frame(p, 13, false), Covered(p);
    forall k {:trigger c[k]} | 0 <= k < |c| ensures Mask(line[0 + 1 + k], image) == c[k] && c[k] != SOH {
      assert line[1 + k] == c[k];
      if k >= 3 { assert c[k] == p.data[k - 3]; }
    }
  }

  /** The length character is another matter: with one bit of it changed a packet of two
      characters is accepted as one of the first alone. */
  lemma {:induction false} LengthBitIsAccepted(image: bool)
    ensures var p := Packet(68, 0, 2, [65, 44]);
      var line' := Frame(p, 13, false)[1 := Flip(37, 0)];
      && Sendable(p) && Frame(p, 13, false) == [1, 37, 32, 68, 65, 44, 89, 13]
      && line' == [1, 36, 32, 68, 65, 44, 89, 13]
      && Scan(line', FirstMark(line', 0) + 1, image) == 1 && Whole(line', 1, image) && Accepted(line', 1, image)
      && Length(line', 1, image) == 1 && Reads(line', 4, [65], image)
  {
    hide Scan, Accepted, Whole, Arrives, Fold, Frame, Reads;
    FrameOfTwo(65, 44);
    FoldParts(3, 54);
    OneCharArrives(image);
    IntactIsAccepted([1, 36, 32, 68, 65, 44, 89, 13], 0, 0, Packet(68, 0, 1, [65]), image);
    assert Flip(37, 0) == 36;
  }

  lemma {:induction false} OneCharArrives(image: bool)
    ensures Arrives([1, 36, 32, 68, 65, 44, 89, 13], 0, 0, Packet(68, 0, 1, [65]), image)
  {
    hide Fold, Sum;
    var q := Packet(68, 0, 1, [65]);
    var c := Covered(q);
    HeaderSum(q);
    assert c == c[..3] + [65];
    SumSnoc(c[..3], 65);
    FoldParts(3, 9);
    assert CheckChar(q) == 44;
  }

  /** A packet of quoted file data: spack may be given it, it fits its buffer, and none of
      its characters can be taken for a mark, so that it arrives wherever it is sent whole. */
  lemma {:induction false} DataPacketArrives(s: seq<int>, num: int, image: bool, noise: seq<int>, rest: seq<int>,
                                             eol: int)
    requires IsText(s) && |EncodeAll(s, image)| <= Most(94) && 0 <= num < 64
    requires forall k :: 0 <= k < |noise| ==> noise[k] % 128 != SOH
    requires eol % 128 != SOH
    ensures var b := EncodeAll(s, image);
      var p := Packet(68, num, |b|, b);
      Sendable(p) && Arrives(noise + Frame(p, eol, false) + rest, |noise|, |noise|, p, image)
  {
    hide Encode1, EncodeAll, Sum, Fold;
    var b := EncodeAll(s, image);
    var p := Packet(68, num, |b|, b);
    var c := Covered(p);
    var line := noise + Frame(p, eol, false) + rest;
    forall k | 0 <= k < |b| ensures IsByte(b[k]) && b[k] % 128 >= SP && (!image ==> b[k] < 128) {
      NoMark(s, image, k);
    }
    forall k | 0 <= k < |c| ensures Mask(line[|noise| + 1 + k], image) == c[k] && c[k] != SOH {
      assert line[|noise| + 1 + k] == Frame(p, eol, false)[1 + k] == c[k];
      if k >= 3 { assert c[k] == b[k - 3]; }
    }
    assert forall k :: 0 <= k < |noise| ==> line[k] == noise[k];
  }
}
