/** The selection part of a share link: a bitset over a snapshot's quantities, in lower-case hex. encode is the same
    in omai/snapshots.py and docs/assets/share.js; the two decoders are written differently and modelled apart. */
module ShareLink {
  import opened Ordering
  import opened Wrappers

  type Byte = bv8

  // ---------------------------------------------------------------- bits of a byte

  /** 0x80 >> j */
  function Mask(j: nat): Byte
    requires j < 8
  {
    match j
    case 0 => 0x80 case 1 => 0x40 case 2 => 0x20 case 3 => 0x10
    case 4 => 0x08 case 5 => 0x04 case 6 => 0x02 case 7 => 0x01
  }

  predicate Has(x: Byte, j: nat)
    requires j < 8
  {
    x & Mask(j) != 0
  }

  lemma HasOr(x: Byte, j: nat, i: nat)
    requires i < 8 && j < 8
    ensures Has(x | Mask(j), i) <==> i == j || Has(x, i)
  {
  }

  lemma SameBits(x: Byte, y: Byte)
    requires forall j :: 0 <= j < 8 ==> (Has(x, j) <==> Has(y, j))
    ensures x == y
  {
    assert Has(x, 0) == Has(y, 0) && Has(x, 1) == Has(y, 1) && Has(x, 2) == Has(y, 2) && Has(x, 3) == Has(y, 3);
    assert Has(x, 4) == Has(y, 4) && Has(x, 5) == Has(y, 5) && Has(x, 6) == Has(y, 6) && Has(x, 7) == Has(y, 7);
  }

  lemma SomeBit(x: Byte)
    requires x != 0
    ensures exists j :: 0 <= j < 8 && Has(x, j)
  {
    if forall j :: 0 <= j < 8 ==> !Has(x, j) {
      SameBits(x, 0);
    }
  }

  lemma NoBits(j: nat)
    requires j < 8
    ensures !Has(0, j)
  {
  }

  // ---------------------------------------------------------------- hex

  predicate IsHex(c: char) {
    '0' <= c <= '9' || 'a' <= c <= 'f'
  }

  function Digit(n: Byte): char
    requires n < 16
  {
    match n
    case 0 => '0' case 1 => '1' case 2 => '2' case 3 => '3' case 4 => '4' case 5 => '5' case 6 => '6' case 7 => '7'
    case 8 => '8' case 9 => '9' case 10 => 'a' case 11 => 'b' case 12 => 'c' case 13 => 'd' case 14 => 'e'
    case _ => 'f'
  }

  function Nibble(c: char): Byte
    requires IsHex(c)
  {
    match c
    case '0' => 0 case '1' => 1 case '2' => 2 case '3' => 3 case '4' => 4 case '5' => 5 case '6' => 6 case '7' => 7
    case '8' => 8 case '9' => 9 case 'a' => 10 case 'b' => 11 case 'c' => 12 case 'd' => 13 case 'e' => 14
    case _ => 15
  }

  function HexOf(buf: seq<Byte>): (s: string)
    ensures |s| == 2 * |buf|
  {
    if buf == [] then []
    else
      [Digit(buf[0] >> 4), Digit(buf[0] & 0x0f)] + HexOf(buf[1..])
  }

  predicate AllHex(s: string) {
    |s| % 2 == 0 && forall i :: 0 <= i < |s| ==> IsHex(s[i])
  }

  function ByteOf(hi: char, lo: char): Byte
    requires IsHex(hi) && IsHex(lo)
  {
    (Nibble(hi) << 4) | Nibble(lo)
  }

  function FromHex(s: string): (buf: seq<Byte>)
    requires AllHex(s)
    ensures 2 * |buf| == |s|
    decreases |s|
  {
    if s == [] then [] else [ByteOf(s[0], s[1])] + FromHex(s[2..])
  }

  lemma DigitNibble(n: Byte)
    requires n < 16
    ensures IsHex(Digit(n)) && Nibble(Digit(n)) == n
  {
  }

  lemma NibbleDigit(c: char)
    requires IsHex(c)
    ensures Nibble(c) < 16 && Digit(Nibble(c)) == c
  {
  }

  lemma Halves(x: Byte)
    ensures x >> 4 < 16 && x & 0x0f < 16 && ((x >> 4) << 4) | (x & 0x0f) == x
  {
  }

  lemma Joined(hi: Byte, lo: Byte)
    requires hi < 16 && lo < 16
    ensures ((hi << 4) | lo) >> 4 == hi && ((hi << 4) | lo) & 0x0f == lo
  {
  }

  lemma {:induction false} HexRoundTrip(buf: seq<Byte>)
    ensures AllHex(HexOf(buf)) && FromHex(HexOf(buf)) == buf
  {
    if buf != [] {
      var s := HexOf(buf);
      HexRoundTrip(buf[1..]);
      Halves(buf[0]);
      DigitNibble(buf[0] >> 4);
      DigitNibble(buf[0] & 0x0f);
      assert s[2..] == HexOf(buf[1..]);
      forall i | 0 <= i < |s| ensures IsHex(s[i]) {
        if i >= 2 { assert s[i] == HexOf(buf[1..])[i - 2]; }
      }
    }
  }

  lemma {:induction false} BytesRoundTrip(s: string)
    requires AllHex(s)
    ensures HexOf(FromHex(s)) == s
    decreases |s|
  {
    if s != [] {
      BytesRoundTrip(s[2..]);
      NibbleDigit(s[0]);
      NibbleDigit(s[1]);
      Joined(Nibble(s[0]), Nibble(s[1]));
      assert FromHex(s)[1..] == FromHex(s[2..]);
      assert s == [s[0], s[1]] + s[2..];
    }
  }

  lemma {:induction false} ByteAt(s: string, k: nat)
    requires AllHex(s) && 2 * k < |s|
    ensures FromHex(s)[k] == ByteOf(s[2 * k], s[2 * k + 1])
    decreases k
  {
    if k > 0 { ByteAt(s[2..], k - 1); }
  }

  // ---------------------------------------------------------------- bitsets

  predicate Bit(buf: seq<Byte>, i: nat)
    requires i < 8 * |buf|
  {
    Has(buf[i / 8], i % 8)
  }

  /** The positions below k that are set, in ascending order. */
  function SetBits(buf: seq<Byte>, k: nat): seq<nat>
    requires k <= 8 * |buf|
  {
    if k == 0 then [] else if Bit(buf, k - 1) then SetBits(buf, k - 1) + [k - 1] else SetBits(buf, k - 1)
  }

  lemma {:induction false} SetBitsAre(buf: seq<Byte>, k: nat)
    requires k <= 8 * |buf|
    ensures forall i: nat :: i in SetBits(buf, k) <==> i < k && Bit(buf, i)
    ensures forall a, b :: 0 <= a < b < |SetBits(buf, k)| ==> SetBits(buf, k)[a] < SetBits(buf, k)[b]
  {
    if k > 0 {
      SetBitsAre(buf, k - 1);
      var low := SetBits(buf, k - 1);
      forall a | 0 <= a < |low| ensures low[a] < k - 1 {
        assert low[a] in low;
      }
    }
  }

  lemma SameBuffers(a: seq<Byte>, b: seq<Byte>)
    requires |a| == |b| && forall i :: 0 <= i < 8 * |a| ==> (Bit(a, i) <==> Bit(b, i))
    ensures a == b
  {
    forall k | 0 <= k < |a| ensures a[k] == b[k] {
      forall j | 0 <= j < 8 ensures Has(a[k], j) <==> Has(b[k], j) {
        var i := 8 * k + j;
        assert i / 8 == k && i % 8 == j;
        assert Bit(a, i) <==> Bit(b, i);
      }
      SameBits(a[k], b[k]);
    }
  }

  // ---------------------------------------------------------------- bits of a text

  /** The number a hex digit stands for. */
  function DigitValue(c: char): (v: nat)
    requires IsHex(c)
    ensures v < 16
  {
    if c <= '9' then c as int - '0' as int else 10 + c as int - 'a' as int
  }

  /** What the j-th of a digit's four bits is worth. */
  function Worth(j: nat): (w: nat)
    requires j < 4
    ensures w > 0
  {
    if j == 0 then 8 else if j == 1 then 4 else if j == 2 then 2 else 1
  }

  /** Four positions to a digit, the first of them the digit's highest bit. */
  predicate TextBit(hx: string, i: nat)
    requires AllHex(hx) && i < 4 * |hx|
  {
    DigitValue(hx[i / 4]) / Worth(i % 4) % 2 == 1
  }

  lemma DigitBit(c: char, j: nat)
    requires IsHex(c) && j < 4
    ensures Nibble(c) < 16
    ensures Nibble(c) & (Mask(j) >> 4) != 0 <==> DigitValue(c) / Worth(j) % 2 == 1
  {
    match c
    case '0' => case '1' => case '2' => case '3' => case '4' => case '5' => case '6' => case '7' =>
    case '8' => case '9' => case 'a' => case 'b' => case 'c' => case 'd' => case 'e' => case 'f' =>
  }

  lemma HalfBit(hi: Byte, lo: Byte, j: nat)
    requires hi < 16 && lo < 16 && j < 4
    ensures Has((hi << 4) | lo, j) <==> hi & (Mask(j) >> 4) != 0
    ensures Has((hi << 4) | lo, j + 4) <==> lo & (Mask(j) >> 4) != 0
  {
  }

  lemma BitIsTextBit(hx: string, i: nat)
    requires AllHex(hx) && i < 4 * |hx|
    ensures i < 8 * |FromHex(hx)| && (Bit(FromHex(hx), i) <==> TextBit(hx, i))
  {
    var k := i / 8;
    ByteAt(hx, k);
    DigitOfPosition(i);
    ByteBit(hx[2 * k], hx[2 * k + 1], i % 8);
  }

  lemma DigitOfPosition(i: nat)
    ensures i % 8 < 4 ==> i / 4 == 2 * (i / 8) && i % 4 == i % 8
    ensures i % 8 >= 4 ==> i / 4 == 2 * (i / 8) + 1 && i % 4 == i % 8 - 4
  {
  }

  lemma ByteBit(hi: char, lo: char, j: nat)
    requires IsHex(hi) && IsHex(lo) && j < 8
    ensures j < 4 ==> (Has(ByteOf(hi, lo), j) <==> DigitValue(hi) / Worth(j) % 2 == 1)
    ensures j >= 4 ==> (Has(ByteOf(hi, lo), j) <==> DigitValue(lo) / Worth(j - 4) % 2 == 1)
  {
    var half := if j < 4 then j else j - 4;
    DigitBit(hi, half);
    DigitBit(lo, half);
    HalfBit(Nibble(hi), Nibble(lo), half);
  }

  /** The text's positions are the selected nodes: the first node is the highest bit of the first digit. */
  ghost predicate Spells(nodes: seq<string>, ids: seq<string>, hx: string) {
    AllHex(hx) && forall i :: 0 <= i < 4 * |hx| ==> (TextBit(hx, i) <==> i < |nodes| && nodes[i] in ids)
  }

  // ---------------------------------------------------------------- encode

  /** The dict {id: index}: the last index wins. */
  function OrderOf(nodes: seq<string>, id: string): Option<nat> {
    if nodes == [] then None
    else if nodes[|nodes| - 1] == id then Some(|nodes| - 1)
    else OrderOf(nodes[..|nodes| - 1], id)
  }

  function BitsOf(nodes: seq<string>, ids: seq<string>): seq<nat> {
    if ids == [] then []
    else
      var o := OrderOf(nodes, ids[|ids| - 1]);
      BitsOf(nodes, ids[..|ids| - 1]) + (if o.Some? then [o.value] else [])
  }

  function Max(s: seq<nat>): (m: nat)
    requires s != []
    ensures m in s && forall x :: x in s ==> x <= m
  {
    if |s| == 1 then s[0]
    else
      var m := Max(s[..|s| - 1]);
      assert forall x :: x in s ==> x in s[..|s| - 1] || x == s[|s| - 1];
      if s[|s| - 1] > m then s[|s| - 1] else m
  }

  /** The buffer ends at the byte of the largest position and has exactly the given positions set. */
  ghost predicate BufferOf(bits: seq<nat>, buf: seq<Byte>) {
    && bits != [] && |buf| == Max(bits) / 8 + 1
    && forall i :: 0 <= i < 8 * |buf| ==> (Bit(buf, i) <==> i in bits)
  }

  /** What encode returns; None stands for the error on an empty selection. */
  ghost predicate Encodes(nodes: seq<string>, ids: seq<string>, hx: Option<string>) {
    var bits := BitsOf(nodes, ids);
    if bits == [] then hx.None?
    else hx.Some? && exists buf :: BufferOf(bits, buf) && hx.value == HexOf(buf)
  }

  method Encode(nodes: seq<string>, ids: seq<string>) returns (hx: Option<string>)
    ensures Encodes(nodes, ids, hx)
  {
    var bits := BitsOf(nodes, ids);
    if bits == [] {
      return None;
    }
    var buf := new Byte[Max(bits) / 8 + 1](_ => 0);
    forall i | 0 <= i < 8 * |buf[..]| ensures !Bit(buf[..], i) {
      NoBits(i % 8);
    }
    for k := 0 to |bits|
      invariant forall i :: 0 <= i < 8 * |buf[..]| ==> (Bit(buf[..], i) <==> i in bits[..k])
    {
      var b := bits[k];
      assert b in bits;
      ghost var before := buf[..];
      OrInto(before, b);
      buf[b / 8] := buf[b / 8] | Mask(b % 8);
      assert buf[..] == before[b / 8 := before[b / 8] | Mask(b % 8)];
      assert bits[..k + 1] == bits[..k] + [b];
    }
    assert bits[..|bits|] == bits;
    assert BufferOf(bits, buf[..]);
    hx := Some(HexOf(buf[..]));
  }

  lemma OrInto(buf: seq<Byte>, b: nat)
    requires b < 8 * |buf|
    ensures forall i :: 0 <= i < 8 * |buf| ==>
              (Bit(buf[b / 8 := buf[b / 8] | Mask(b % 8)], i) <==> i == b || Bit(buf, i))
  {
    forall i | 0 <= i < 8 * |buf|
      ensures Bit(buf[b / 8 := buf[b / 8] | Mask(b % 8)], i) <==> i == b || Bit(buf, i)
    {
      HasOr(buf[b / 8], b % 8, i % 8);
    }
  }

  // ---------------------------------------------------------------- decode

  /** An accepted spelling: hex in whole bytes, at least one, the last byte not zero. */
  predicate WellFormed(hx: string) {
    hx != "" && AllHex(hx) && !(hx[|hx| - 2] == '0' && hx[|hx| - 1] == '0')
  }

  function Pick(nodes: seq<string>, idx: seq<nat>): (r: seq<string>)
    requires InRange(idx, |nodes|)
    ensures |r| == |idx|
    ensures forall k :: 0 <= k < |idx| ==> r[k] == nodes[idx[k]]
  {
    seq(|idx|, (k: nat) requires k < |idx| => nodes[idx[k]])
  }

  predicate InRange(idx: seq<nat>, n: nat) {
    forall k :: 0 <= k < |idx| ==> idx[k] < n
  }

  function SelectedBy(hx: string): seq<nat>
    requires AllHex(hx)
  {
    SetBits(FromHex(hx), 8 * |FromHex(hx)|)
  }

  function Decoded(nodes: seq<string>, hx: string): Option<seq<string>> {
    if WellFormed(hx) && InRange(SelectedBy(hx), |nodes|) then Some(Pick(nodes, SelectedBy(hx))) else None
  }

  /** A last byte other than zero has a bit in it. */
  lemma LastByteHasBit(hx: string)
    requires WellFormed(hx)
    ensures SelectedBy(hx) != []
    ensures exists i :: 8 * |FromHex(hx)| - 8 <= i < 8 * |FromHex(hx)| && Bit(FromHex(hx), i)
  {
    var buf := FromHex(hx);
    var last := |buf| - 1;
    ByteAt(hx, last);
    var hi, lo := hx[2 * last], hx[2 * last + 1];
    NibbleDigit(hi);
    NibbleDigit(lo);
    Joined(Nibble(hi), Nibble(lo));
    SomeBit(buf[last]);
    var j :| 0 <= j < 8 && Has(buf[last], j);
    var i := 8 * last + j;
    assert i / 8 == last && i % 8 == j && Bit(buf, i);
    SetBitsAre(buf, 8 * |buf|);
    assert i in SelectedBy(hx);
  }

  /** decode of omai/snapshots.py: collect every set position, then look at the last one. */
  method DecodePython(nodes: seq<string>, hx: string) returns (ids: Option<seq<string>>)
    ensures ids == Decoded(nodes, hx)
  {
    if hx == "" || |hx| % 2 != 0 || (exists i :: 0 <= i < |hx| && !IsHex(hx[i])) ||
       (hx[|hx| - 2] == '0' && hx[|hx| - 1] == '0')
    {
      return None;
    }
    var buf := FromHex(hx);
    var idx := SetBits(buf, 8 * |buf|);
    LastByteHasBit(hx);
    SetBitsAre(buf, 8 * |buf|);
    if idx == [] || idx[|idx| - 1] >= |nodes| {
      return None;
    }
    ids := Some(Pick(nodes, idx));
  }

  lemma BitRead(hx: string, i: nat)
    requires AllHex(hx) && i < 4 * |hx|
    ensures i / 8 < |FromHex(hx)| && 2 * (i / 8) + 1 < |hx|
    ensures ByteOf(hx[2 * (i / 8)], hx[2 * (i / 8) + 1]) & Mask(i % 8) != 0 <==> Bit(FromHex(hx), i)
  {
    ByteAt(hx, i / 8);
  }

  lemma BeyondRange(hx: string, i: nat, n: nat)
    requires AllHex(hx) && i < 8 * |FromHex(hx)| && Bit(FromHex(hx), i) && i >= n
    ensures !InRange(SelectedBy(hx), n)
  {
    SetBitsAre(FromHex(hx), 8 * |FromHex(hx)|);
    assert i in SelectedBy(hx);
    var k :| 0 <= k < |SelectedBy(hx)| && SelectedBy(hx)[k] == i;
  }

  lemma PickOneMore(nodes: seq<string>, idx: seq<nat>, i: nat)
    requires InRange(idx, |nodes|) && i < |nodes|
    ensures InRange(idx + [i], |nodes|) && Pick(nodes, idx + [i]) == Pick(nodes, idx) + [nodes[i]]
  {
  }

  /** The ids found at the set positions below i. */
  ghost predicate ReadUpTo(nodes: seq<string>, buf: seq<Byte>, i: nat, found: seq<string>)
    requires i <= 8 * |buf|
  {
    InRange(SetBits(buf, i), |nodes|) && found == Pick(nodes, SetBits(buf, i))
  }

  lemma DecodeStep(nodes: seq<string>, buf: seq<Byte>, i: nat, found: seq<string>)
    requires i < 8 * |buf| && ReadUpTo(nodes, buf, i, found)
    ensures !Bit(buf, i) ==> ReadUpTo(nodes, buf, i + 1, found)
    ensures Bit(buf, i) && i < |nodes| ==> ReadUpTo(nodes, buf, i + 1, found + [nodes[i]])
  {
    if i < |nodes| { PickOneMore(nodes, SetBits(buf, i), i); }
  }

  /** parseInt of the two digits around position i, masked. */
  method PositionSet(hx: string, i: nat) returns (on: bool)
    requires AllHex(hx) && i < 4 * |hx|
    ensures i < 8 * |FromHex(hx)| && (on <==> Bit(FromHex(hx), i))
  {
    BitRead(hx, i);
    on := ByteOf(hx[2 * (i / 8)], hx[2 * (i / 8) + 1]) & Mask(i % 8) != 0;
  }

  /** decode of docs/assets/share.js: read one position at a time and stop at the first one out of range. */
  method DecodeJavaScript(nodes: seq<string>, hx: string) returns (ids: Option<seq<string>>)
    ensures ids == Decoded(nodes, hx)
  {
    if !WellFormed(hx) {
      return None;
    }
    ghost var buf := FromHex(hx);
    var found: seq<string> := [];
    for i := 0 to 4 * |hx|
      invariant i <= 8 * |buf| && ReadUpTo(nodes, buf, i, found)
    {
      var on := PositionSet(hx, i);
      DecodeStep(nodes, buf, i, found);
      if on {
        if i >= |nodes| {
          BeyondRange(hx, i, |nodes|);
          return None;
        }
        found := found + [nodes[i]];
      }
    }
    ids := Some(found);
  }

  // ---------------------------------------------------------------- the two directions

  lemma {:induction false} OrderFinds(nodes: seq<string>, id: string)
    ensures OrderOf(nodes, id).None? <==> id !in nodes
    ensures OrderOf(nodes, id).Some? ==> OrderOf(nodes, id).value < |nodes| && nodes[OrderOf(nodes, id).value] == id
  {
    if nodes != [] {
      OrderFinds(nodes[..|nodes| - 1], id);
      assert nodes == nodes[..|nodes| - 1] + [nodes[|nodes| - 1]];
    }
  }

  lemma {:induction false} BitsAre(nodes: seq<string>, ids: seq<string>)
    requires Distinct(nodes)
    ensures forall i: nat :: i in BitsOf(nodes, ids) <==> i < |nodes| && nodes[i] in ids
  {
    if ids != [] {
      var rest, id := ids[..|ids| - 1], ids[|ids| - 1];
      BitsAre(nodes, rest);
      OrderFinds(nodes, id);
      assert ids == rest + [id];
    }
  }

  lemma EncodedSpells(nodes: seq<string>, ids: seq<string>, hx: Option<string>)
    requires Distinct(nodes) && Encodes(nodes, ids, hx) && hx.Some?
    ensures Spells(nodes, ids, hx.value)
  {
    var buf :| BufferOf(BitsOf(nodes, ids), buf) && hx.value == HexOf(buf);
    BitsAre(nodes, ids);
    HexRoundTrip(buf);
    forall i | 0 <= i < 4 * |hx.value| ensures TextBit(hx.value, i) <==> i < |nodes| && nodes[i] in ids {
      BitIsTextBit(hx.value, i);
    }
  }

  lemma DecodedSpells(nodes: seq<string>, hx: string)
    requires Distinct(nodes) && Decoded(nodes, hx).Some?
    ensures Spells(nodes, Decoded(nodes, hx).value, hx)
  {
    var idx := SelectedBy(hx);
    SetBitsAre(FromHex(hx), 8 * |FromHex(hx)|);
    forall i | 0 <= i < 4 * |hx| ensures TextBit(hx, i) <==> i < |nodes| && nodes[i] in Pick(nodes, idx) {
      BitIsTextBit(hx, i);
      InPick(nodes, idx, i);
    }
  }

  function Positions(nodes: seq<string>, ids: seq<string>, k: nat): seq<nat>
    requires k <= |nodes|
  {
    if k == 0 then []
    else Positions(nodes, ids, k - 1) + (if nodes[k - 1] in ids then [k - 1] else [])
  }

  /** The selection as a set, in snapshot order. */
  function InSnapshotOrder(nodes: seq<string>, ids: seq<string>, k: nat): seq<string>
    requires k <= |nodes|
  {
    if k == 0 then []
    else InSnapshotOrder(nodes, ids, k - 1) + (if nodes[k - 1] in ids then [nodes[k - 1]] else [])
  }

  lemma {:induction false} PickPositions(nodes: seq<string>, ids: seq<string>, buf: seq<Byte>, k: nat)
    requires k <= 8 * |buf|
    requires forall i: nat :: i < 8 * |buf| ==> (Bit(buf, i) <==> i < |nodes| && nodes[i] in ids)
    ensures InRange(SetBits(buf, k), |nodes|)
    ensures Pick(nodes, SetBits(buf, k)) == InSnapshotOrder(nodes, ids, if k < |nodes| then k else |nodes|)
  {
    if k > 0 {
      PickPositions(nodes, ids, buf, k - 1);
      assert Bit(buf, k - 1) <==> k - 1 < |nodes| && nodes[k - 1] in ids;
      if Bit(buf, k - 1) {
        PickOneMore(nodes, SetBits(buf, k - 1), k - 1);
      }
    }
  }

  lemma {:induction false} NothingBeyond(nodes: seq<string>, ids: seq<string>, m: nat, k: nat)
    requires m <= k <= |nodes| && forall i :: m <= i < |nodes| ==> nodes[i] !in ids
    ensures InSnapshotOrder(nodes, ids, k) == InSnapshotOrder(nodes, ids, m)
  {
    if k > m { NothingBeyond(nodes, ids, m, k - 1); }
  }

  lemma HexEndsNonZero(buf: seq<Byte>, i: nat)
    requires buf != [] && 8 * |buf| - 8 <= i < 8 * |buf| && Bit(buf, i)
    ensures WellFormed(HexOf(buf))
  {
    var hx := HexOf(buf);
    var last := |buf| - 1;
    HexRoundTrip(buf);
    ByteAt(hx, last);
    NoBits(i % 8);
    assert i / 8 == last;
  }

  /** Decoding an encoded selection gives the selected set back, in snapshot order. */
  lemma DecodeEncode(nodes: seq<string>, ids: seq<string>, hx: Option<string>)
    requires Distinct(nodes) && Encodes(nodes, ids, hx) && hx.Some?
    ensures Decoded(nodes, hx.value) == Some(InSnapshotOrder(nodes, ids, |nodes|))
  {
    var bits := BitsOf(nodes, ids);
    var buf :| BufferOf(bits, buf) && hx.value == HexOf(buf);
    BitsAre(nodes, ids);
    HexRoundTrip(buf);
    var top := Max(bits);
    assert Bit(buf, top);
    HexEndsNonZero(buf, top);
    forall i: nat | i < 8 * |buf| ensures Bit(buf, i) <==> i < |nodes| && nodes[i] in ids {
      assert Bit(buf, i) <==> i in bits;
    }
    PickPositions(nodes, ids, buf, 8 * |buf|);
    var m := if 8 * |buf| < |nodes| then 8 * |buf| else |nodes|;
    forall i | m <= i < |nodes| ensures nodes[i] !in ids {
      assert i in bits ==> i <= top;
    }
    NothingBeyond(nodes, ids, m, |nodes|);
  }

  lemma SameMembersSameMax(a: seq<nat>, b: seq<nat>)
    requires a != [] && b != [] && forall i: nat :: i in a <==> i in b
    ensures Max(a) == Max(b)
  {
  }

  lemma InPick(nodes: seq<string>, idx: seq<nat>, i: nat)
    requires Distinct(nodes) && InRange(idx, |nodes|)
    ensures i < |nodes| && nodes[i] in Pick(nodes, idx) <==> i in idx
  {
    var ids := Pick(nodes, idx);
    if i in idx {
      var k :| 0 <= k < |idx| && idx[k] == i;
      assert ids[k] == nodes[i];
    }
    if i < |nodes| && nodes[i] in ids {
      var k :| 0 <= k < |ids| && ids[k] == nodes[i];
      assert idx[k] in idx;
    }
  }

  lemma PickedBits(nodes: seq<string>, idx: seq<nat>)
    requires Distinct(nodes) && InRange(idx, |nodes|)
    ensures forall i: nat :: i in BitsOf(nodes, Pick(nodes, idx)) <==> i in idx
  {
    BitsAre(nodes, Pick(nodes, idx));
    forall i: nat ensures i in BitsOf(nodes, Pick(nodes, idx)) <==> i in idx {
      InPick(nodes, idx, i);
    }
  }

  lemma TopByte(hx: string)
    requires WellFormed(hx)
    ensures SelectedBy(hx) != [] && Max(SelectedBy(hx)) / 8 + 1 == |FromHex(hx)|
  {
    LastByteHasBit(hx);
    var i :| 8 * |FromHex(hx)| - 8 <= i < 8 * |FromHex(hx)| && Bit(FromHex(hx), i);
    SetBitsAre(FromHex(hx), 8 * |FromHex(hx)|);
    assert i in SelectedBy(hx);
  }

  /** Every accepted spelling is what its own selection encodes to, so a selection has exactly one. */
  lemma EncodeDecode(nodes: seq<string>, hx: string, again: Option<string>)
    requires Distinct(nodes) && Decoded(nodes, hx).Some?
    requires Encodes(nodes, Decoded(nodes, hx).value, again)
    ensures again == Some(hx)
  {
    var buf, idx := FromHex(hx), SelectedBy(hx);
    var bits := BitsOf(nodes, Pick(nodes, idx));
    PickedBits(nodes, idx);
    TopByte(hx);
    assert idx[0] in bits;
    SameMembersSameMax(bits, idx);
    SetBitsAre(buf, 8 * |buf|);
    var buf' :| BufferOf(bits, buf') && again.value == HexOf(buf');
    SameBuffers(buf, buf');
    BytesRoundTrip(hx);
  }

  /** Two accepted spellings with one selection are the same spelling. */
  lemma OneSpelling(nodes: seq<string>, a: string, b: string, hx: Option<string>)
    requires Distinct(nodes) && Decoded(nodes, a).Some? && Decoded(nodes, a) == Decoded(nodes, b)
    requires Encodes(nodes, Decoded(nodes, a).value, hx)
    ensures a == b
  {
    EncodeDecode(nodes, a, hx);
    EncodeDecode(nodes, b, hx);
  }
}
