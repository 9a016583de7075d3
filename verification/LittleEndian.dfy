/** Fixed-width little-endian numbers, arrays of them, and the checksum stored as one. */
module LittleEndian {
  import opened Keys

  /** Any checksum of the bytes it covers, 32 bits wide. */
  type Checksum = Bytes -> nat

  function Sum(crc: Checksum, s: Bytes): nat {
    crc(s) % 0x1_0000_0000
  }

  function Power(width: nat): (p: nat)
    ensures p > 0
  {
    if width == 0 then 1 else 0x100 * Power(width - 1)
  }

  /** A number in `width` bytes, lowest first; higher bytes are dropped. */
  function Put(n: nat, width: nat): (s: Bytes)
    ensures |s| == width
  {
    if width == 0 then [] else [n % 0x100] + Put(n / 0x100, width - 1)
  }

  function Get(s: Bytes): (n: nat)
    ensures n < Power(|s|)
  {
    if s == [] then 0 else s[0] + 0x100 * Get(s[1..])
  }

  lemma {:induction false} GetPut(n: nat, width: nat)
    requires n < Power(width)
    ensures Get(Put(n, width)) == n
  {
    if width > 0 {
      assert n / 0x100 < Power(width - 1);
      GetPut(n / 0x100, width - 1);
      assert Put(n, width)[1..] == Put(n / 0x100, width - 1);
    }
  }

  lemma {:induction false} PutGet(s: Bytes)
    ensures Put(Get(s), |s|) == s
  {
    if s != [] {
      PutGet(s[1..]);
      assert Get(s) % 0x100 == s[0] && Get(s) / 0x100 == Get(s[1..]);
    }
  }

  lemma PowerValues()
    ensures Power(1) == 0x100 && Power(2) == 0x1_0000 && Power(4) == 0x1_0000_0000 && Power(8) == 0x1_0000_0000_0000_0000
  {
    assert Power(1) == 0x100;
    assert Power(2) == 0x1_0000;
    assert Power(3) == 0x100_0000;
    assert Power(4) == 0x1_0000_0000;
    assert Power(6) == 0x1_0000_0000_0000;
  }

  /** A number's bytes at an offset: byte `i` is the number divided by 256 that many times, modulo 256. */
  ghost predicate NumberAt(s: Bytes, offset: nat, n: nat, width: nat) {
    offset + width <= |s| && forall i :: 0 <= i < width ==> s[offset + i] == n / Power(i) % 0x100
  }

  lemma NumberIsAt(s: Bytes, offset: nat, n: nat, width: nat)
    requires offset + width <= |s| && s[offset..offset + width] == Put(n, width)
    ensures NumberAt(s, offset, n, width)
  {
    PutBytes(n, width);
    hide Put, Power;
    forall i | 0 <= i < width ensures s[offset + i] == n / Power(i) % 0x100 {
      assert s[offset + i] == s[offset..offset + width][i];
    }
  }

  /** Byte `i` is the number divided by 256 that many times, modulo 256: the lowest byte comes first. */
  lemma {:induction false} PutBytes(n: nat, width: nat)
    ensures forall i :: 0 <= i < width ==> Put(n, width)[i] == n / Power(i) % 0x100
  {
    if width > 0 {
      PutBytes(n / 0x100, width - 1);
      forall i | 0 <= i < width ensures Put(n, width)[i] == n / Power(i) % 0x100 {
        if i > 0 {
          assert Put(n, width)[i] == Put(n / 0x100, width - 1)[i - 1];
          DivideTwice(n, Power(i - 1));
        }
      }
    }
  }

  lemma DivideTwice(n: nat, m: nat)
    requires m > 0
    ensures n / 0x100 / m == n / (0x100 * m)
  {
    var q, r := n / 0x100, n % 0x100;
    var p, t := q / m, q % m;
    assert q == p * m + t && 0x100 * (p * m) == p * (0x100 * m);
    var rest := 0x100 * t + r;
    assert n == p * (0x100 * m) + rest && 0 <= rest < 0x100 * m;
    QuotientIs(n, 0x100 * m, p, rest);
  }

  lemma QuotientIs(n: nat, m: nat, q: nat, r: nat)
    requires n == q * m + r && r < m
    ensures n / m == q
  {
    var p := n / m;
    if p > q {
      Times(q + 1, p, m);
    } else if p < q {
      Times(p + 1, q, m);
    }
  }

  lemma Times(a: nat, b: nat, m: nat)
    requires a <= b
    ensures a * m <= b * m
  {
  }

  // ----- Arrays ----------------------------------------------------------------------------------

  predicate Fit(values: seq<nat>, width: nat) {
    forall i :: 0 <= i < |values| ==> values[i] < Power(width)
  }

  function PutAll(values: seq<nat>, width: nat): (s: Bytes)
    ensures |s| == width * |values|
  {
    if values == [] then [] else PutAll(values[..|values| - 1], width) + Put(values[|values| - 1], width)
  }

  function GetAll(s: Bytes, count: nat, width: nat): (values: seq<nat>)
    requires |s| == width * count
    ensures |values| == count && Fit(values, width)
  {
    if count == 0 then []
    else
      var n := width * (count - 1);
      assert n <= |s| && |s[n..]| == width;
      GetAll(s[..n], count - 1, width) + [Get(s[n..])]
  }

  lemma {:induction false} GetAllPutAll(values: seq<nat>, width: nat)
    requires Fit(values, width)
    ensures GetAll(PutAll(values, width), |values|, width) == values
    decreases |values|
  {
    if values != [] {
      var n := |values| - 1;
      GetAllPutAll(values[..n], width);
      GetPut(values[n], width);
      GetAllAppend(PutAll(values[..n], width), Put(values[n], width), n, width);
      hide GetAll, Put, Get, Power;
      assert values == values[..n] + [values[n]];
    }
  }

  /** Reading one more value reads the bytes after those of the others. */
  lemma GetAllAppend(front: Bytes, last: Bytes, count: nat, width: nat)
    requires |front| == width * count && |last| == width
    ensures |front + last| == width * (count + 1)
    ensures GetAll(front + last, count + 1, width) == GetAll(front, count, width) + [Get(last)]
  {
    hide Get;
    var s := front + last;
    assert width * (count + 1 - 1) == |front|;
    assert s[..|front|] == front && s[|front|..] == last;
  }

  /** Value `k` starts at offset `width * k`. */
  lemma {:induction false} PutAllBytes(values: seq<nat>, width: nat, k: nat)
    requires k < |values|
    ensures width * k + width <= |PutAll(values, width)|
    ensures PutAll(values, width)[width * k..width * k + width] == Put(values[k], width)
    decreases |values|
  {
    hide PutAll, Put;
    var n := |values| - 1;
    PutAllLast(values, width);
    Room(width, k, |values|);
    if k < n {
      Room(width, k, n);
      PutAllBytes(values[..n], width, k);
      var s, front := PutAll(values, width), PutAll(values[..n], width);
      assert s[width * k..width * k + width] == front[width * k..width * k + width];
    }
  }

  lemma PutAllLast(values: seq<nat>, width: nat)
    requires values != []
    ensures var n := |values| - 1; var s := PutAll(values, width);
      && s == PutAll(values[..n], width) + Put(values[n], width)
      && |PutAll(values[..n], width)| == width * n && s[width * n..] == Put(values[n], width)
  {
  }

  lemma {:induction false} PutAllGetAll(s: Bytes, count: nat, width: nat)
    requires |s| == width * count
    ensures PutAll(GetAll(s, count, width), width) == s
    decreases count
  {
    hide Get, Put, Fit;
    if count > 0 {
      var n := width * (count - 1);
      Room(width, count - 1, count);
      var head, tail := s[..n], s[n..];
      assert |tail| == width && s == head + tail;
      PutAllGetAll(head, count - 1, width);
      PutGet(tail);
      AppendValue(GetAll(head, count - 1, width), Get(tail), width);
    }
  }

  lemma AppendValue(values: seq<nat>, n: nat, width: nat)
    ensures PutAll(values + [n], width) == PutAll(values, width) + Put(n, width)
  {
    assert (values + [n])[..|values|] == values;
  }

  /** Write values one after the other into a buffer of their size. */
  method EncodeFixed(values: seq<nat>, width: nat) returns (data: array<Byte>)
    ensures fresh(data) && data[..] == PutAll(values, width)
  {
    hide PutAll, Put;
    data := new Byte[width * |values|];
    NoValues(width);
    for index := 0 to |values|
      invariant width * index <= data.Length && data[..width * index] == PutAll(values[..index], width)
    {
      var base := width * index;
      assert base + width == width * (index + 1) <= data.Length by { Room(width, index, |values|); }
      PutAt(data, base, values[index], width);
      assert values[..index + 1] == values[..index] + [values[index]];
      AppendValue(values[..index], values[index], width);
    }
    assert values[..|values|] == values;
    assert data[..data.Length] == data[..];
  }

  lemma NoValues(width: nat)
    ensures PutAll([], width) == []
  {
  }

  lemma Room(width: nat, index: nat, count: nat)
    requires index < count
    ensures width * index + width == width * (index + 1) <= width * count
  {
  }

  /** Write one number at an offset, byte by byte. */
  method PutAt(data: array<Byte>, offset: nat, n: nat, width: nat)
    requires offset + width <= data.Length
    modifies data
    ensures data[offset..offset + width] == Put(n, width)
    ensures data[..offset] == old(data[..offset]) && data[offset + width..] == old(data[offset + width..])
    ensures data[..offset + width] == old(data[..offset]) + Put(n, width)
  {
    var s := Put(n, width);
    hide Put;
    ghost var was := data[..];
    for k := 0 to width
      invariant forall i :: 0 <= i < k ==> data[offset + i] == s[i]
      invariant forall i :: 0 <= i < data.Length && !(offset <= i < offset + k) ==> data[i] == was[i]
    {
      data[offset + k] := s[k];
    }
    assert data[..offset] == was[..offset] && data[offset + width..] == was[offset + width..];
    assert data[offset..offset + width] == s;
    assert data[..offset + width] == data[..offset] + data[offset..offset + width];
  }
}
