/** The document payload codec: typed field values as bytes, fields in name order behind checksummed
    headers. Numbers are carried as their bit patterns. */
module Documents {
  import opened Common
  import opened Keys
  import opened LittleEndian

  datatype CodecError = InvalidField | TooLarge | Corrupt

  // ----- Types ------------------------------------------------------------------------------------

  /** What an element's bits must satisfy: nothing, a finite float of some width, or a 4-bit integer. */
  datatype Check = Anything | FiniteHalf | FiniteSingle | FiniteDouble | Nibble

  datatype Shape =
    | NullShape | BlobShape | TextShape | FlagShape | ScalarShape(width: nat, check: Check)
    | BlobsShape | TextsShape | FlagsShape | FixedShape(width: nat, check: Check) | SparseShape(width: nat, check: Check)

  /** The data types by code. */
  function ShapeOf(code: nat): Option<Shape> {
    if code == 0 then Some(NullShape)
    else if code == 1 then Some(BlobShape)
    else if code == 2 then Some(TextShape)
    else if code == 3 then Some(FlagShape)
    else if code == 4 || code == 6 then Some(ScalarShape(4, Anything))
    else if code == 5 || code == 7 then Some(ScalarShape(8, Anything))
    else if code == 8 then Some(ScalarShape(4, FiniteSingle))
    else if code == 9 then Some(ScalarShape(8, FiniteDouble))
    else if code == 20 then Some(FixedShape(4, Anything))
    else if code == 21 then Some(FixedShape(8, Anything))
    else if code == 22 then Some(FixedShape(2, FiniteHalf))
    else if code == 23 then Some(FixedShape(4, FiniteSingle))
    else if code == 24 then Some(FixedShape(8, FiniteDouble))
    else if code == 25 then Some(FixedShape(1, Nibble))
    else if code == 26 then Some(FixedShape(1, Anything))
    else if code == 27 then Some(FixedShape(2, Anything))
    else if code == 30 then Some(SparseShape(2, FiniteHalf))
    else if code == 31 then Some(SparseShape(4, FiniteSingle))
    else if code == 40 then Some(BlobsShape)
    else if code == 41 then Some(TextsShape)
    else if code == 42 then Some(FlagsShape)
    else if code == 43 || code == 45 then Some(FixedShape(4, Anything))
    else if code == 44 || code == 46 then Some(FixedShape(8, Anything))
    else if code == 47 then Some(FixedShape(4, FiniteSingle))
    else if code == 48 then Some(FixedShape(8, FiniteDouble))
    else None
  }

  predicate Passes(check: Check, bits: nat) {
    match check
    case Anything => true
    case FiniteHalf => bits / 0x400 % 0x20 != 0x1F
    case FiniteSingle => bits / 0x80_0000 % 0x100 != 0xFF
    case FiniteDouble => bits / 0x10_0000_0000_0000 % 0x800 != 0x7FF
    case Nibble => bits <= 7 || bits >= 0xF8
  }

  predicate AllPass(check: Check, values: seq<nat>) {
    forall i :: 0 <= i < |values| ==> Passes(check, values[i])
  }

  datatype Coordinate = Coordinate(index: nat, value: nat)

  datatype Value =
    | Null
    | Blob(bytes: Bytes)
    | Text(bytes: Bytes)
    | Flag(flag: bool)
    | Scalar(code: nat, bits: nat)
    | Blobs(items: seq<Option<Bytes>>)
    | Texts(texts: seq<Bytes>)
    | Flags(flags: seq<bool>)
    | Fixed(code: nat, elements: seq<nat>)
    | Sparse(code: nat, entries: seq<Coordinate>)

  const MAX_SPARSE_DIMENSIONS := 16_384
  const NIL_LENGTH := 0xFFFF_FFFF

  function Indices(entries: seq<Coordinate>): (r: seq<nat>)
    ensures |r| == |entries|
  {
    seq(|entries|, i requires 0 <= i < |entries| => entries[i].index)
  }

  function Values(entries: seq<Coordinate>): (r: seq<nat>)
    ensures |r| == |entries|
  {
    seq(|entries|, i requires 0 <= i < |entries| => entries[i].value)
  }

  function Zip(indices: seq<nat>, values: seq<nat>): (r: seq<Coordinate>)
    requires |indices| == |values|
    ensures |r| == |indices| && Indices(r) == indices && Values(r) == values
  {
    seq(|indices|, i requires 0 <= i < |indices| => Coordinate(indices[i], values[i]))
  }

  predicate Distinct(indices: seq<nat>) {
    forall i, j :: 0 <= i < j < |indices| ==> indices[i] != indices[j]
  }

  /** Values a document may hold. */
  predicate Valid(v: Value) {
    match v
    case Null => true
    case Blob(_) => true
    case Text(s) => ValidUtf8(s)
    case Flag(_) => true
    case Scalar(code, bits) =>
      var shape := ShapeOf(code);
      shape.Some? && shape.value.ScalarShape? && bits < Power(shape.value.width) && Passes(shape.value.check, bits)
    case Blobs(items) => forall i :: 0 <= i < |items| && items[i].Some? ==> |items[i].value| < NIL_LENGTH
    case Texts(texts) => forall i :: 0 <= i < |texts| ==> ValidUtf8(texts[i]) && |texts[i]| < NIL_LENGTH
    case Flags(_) => true
    case Fixed(code, elements) =>
      var shape := ShapeOf(code);
      shape.Some? && shape.value.FixedShape? && Fit(elements, shape.value.width) && AllPass(shape.value.check, elements)
    case Sparse(code, entries) =>
      var shape := ShapeOf(code);
      && shape.Some? && shape.value.SparseShape?
      && |entries| <= MAX_SPARSE_DIMENSIONS && Distinct(Indices(entries))
      && Fit(Indices(entries), 4) && Fit(Values(entries), shape.value.width) && AllPass(shape.value.check, Values(entries))
  }

  /** Sparse coordinates in index order; every other value is its own canonical form. */
  ghost predicate IsCanonical(v: Value) {
    Valid(v) && (v.Sparse? ==> Increasing(Indices(v.entries)))
  }

  // ----- Canonical sparse vectors ---------------------------------------------------------------------

  function Insert(entries: seq<Coordinate>, e: Coordinate): seq<Coordinate> {
    if entries == [] || entries[|entries| - 1].index < e.index then entries + [e]
    else Insert(entries[..|entries| - 1], e) + [entries[|entries| - 1]]
  }

  function Sorted(entries: seq<Coordinate>): seq<Coordinate> {
    if entries == [] then [] else Insert(Sorted(entries[..|entries| - 1]), entries[|entries| - 1])
  }

  function Canonical(v: Value): Value {
    if v.Sparse? then Sparse(v.code, Sorted(v.entries)) else v
  }

  ghost predicate InOrder(entries: seq<Coordinate>) {
    forall i, j :: 0 <= i < j < |entries| ==> entries[i].index < entries[j].index
  }

  lemma {:induction false} InsertKeeps(entries: seq<Coordinate>, e: Coordinate)
    ensures multiset(Insert(entries, e)) == multiset(entries) + multiset{e}
    ensures forall x :: x in Insert(entries, e) <==> x in entries || x == e
    decreases |entries|
  {
    if !(entries == [] || entries[|entries| - 1].index < e.index) {
      var n := |entries| - 1;
      assert entries == entries[..n] + [entries[n]];
      InsertKeeps(entries[..n], e);
    }
  }

  lemma {:induction false} InsertOrders(entries: seq<Coordinate>, e: Coordinate)
    requires InOrder(entries) && forall x :: x in entries ==> x.index != e.index
    ensures InOrder(Insert(entries, e))
    decreases |entries|
  {
    if entries == [] || entries[|entries| - 1].index < e.index {
    } else {
      var n := |entries| - 1;
      var rest, last := entries[..n], entries[n];
      assert forall x :: x in rest ==> x in entries && x.index < last.index;
      assert last in entries;
      InsertOrders(rest, e);
      InsertKeeps(rest, e);
      assert Insert(entries, e) == Insert(rest, e) + [last];
      hide Insert;
      AppendLast(Insert(rest, e), last);
    }
  }

  lemma AppendLast(entries: seq<Coordinate>, last: Coordinate)
    requires InOrder(entries) && forall x :: x in entries ==> x.index < last.index
    ensures InOrder(entries + [last])
  {
    assert forall i :: 0 <= i < |entries| ==> entries[i] in entries;
  }

  /** Sorting keeps the coordinates and puts them in order. */
  lemma {:induction false} SortedOrders(entries: seq<Coordinate>)
    requires Distinct(Indices(entries))
    ensures InOrder(Sorted(entries)) && multiset(Sorted(entries)) == multiset(entries)
    decreases |entries|
  {
    if entries != [] {
      var n := |entries| - 1;
      var rest, last := entries[..n], entries[n];
      assert entries == rest + [last];
      forall i, j | 0 <= i < j < n ensures Indices(rest)[i] != Indices(rest)[j] {
        assert Indices(entries)[i] != Indices(entries)[j];
      }
      SortedOrders(rest);
      forall x | x in Sorted(rest) ensures x.index != last.index {
        assert x in multiset(Sorted(rest));
        assert x in multiset(rest);
        var i :| 0 <= i < n && rest[i] == x;
        assert Indices(entries)[i] != Indices(entries)[n];
      }
      InsertOrders(Sorted(rest), last);
      InsertKeeps(Sorted(rest), last);
    }
  }

  ghost predicate CoordinateOK(e: Coordinate, width: nat, check: Check) {
    e.index < Power(4) && e.value < Power(width) && Passes(check, e.value)
  }

  lemma CoordinatesOK(entries: seq<Coordinate>, width: nat, check: Check)
    ensures Fit(Indices(entries), 4) && Fit(Values(entries), width) && AllPass(check, Values(entries)) <==>
            forall i :: 0 <= i < |entries| ==> CoordinateOK(entries[i], width, check)
  {
    hide Power, Passes;
    if forall i :: 0 <= i < |entries| ==> CoordinateOK(entries[i], width, check) {
      forall i | 0 <= i < |entries|
        ensures Indices(entries)[i] < Power(4) && Values(entries)[i] < Power(width) && Passes(check, Values(entries)[i])
      {
        assert CoordinateOK(entries[i], width, check);
      }
    } else {
      var i :| 0 <= i < |entries| && !CoordinateOK(entries[i], width, check);
      assert Indices(entries)[i] == entries[i].index && Values(entries)[i] == entries[i].value;
    }
  }

  lemma SameMembers<T>(a: seq<T>, b: seq<T>)
    requires multiset(a) == multiset(b)
    ensures |a| == |b| && forall x :: x in a ==> x in b
  {
    assert |multiset(a)| == |multiset(b)|;
    forall x | x in a ensures x in b {
      assert x in multiset(a);
    }
  }

  lemma OrderIsDistinct(entries: seq<Coordinate>)
    requires InOrder(entries)
    ensures Increasing(Indices(entries)) && Distinct(Indices(entries))
  {
  }

  lemma SortedOK(entries: seq<Coordinate>, width: nat, check: Check)
    requires Distinct(Indices(entries))
    requires Fit(Indices(entries), 4) && Fit(Values(entries), width) && AllPass(check, Values(entries))
    ensures var s := Sorted(entries);
      && multiset(s) == multiset(entries) && |s| == |entries| && Distinct(Indices(s)) && Increasing(Indices(s))
      && Fit(Indices(s), 4) && Fit(Values(s), width) && AllPass(check, Values(s))
  {
    var s := Sorted(entries);
    SortedOrders(entries);
    SameMembers(s, entries);
    OrderIsDistinct(s);
    CoordinatesOK(entries, width, check);
    CoordinatesOK(s, width, check);
    hide Sorted, CoordinateOK, Fit, AllPass, Indices, Values, Distinct, Increasing, InOrder;
    forall i | 0 <= i < |s| ensures CoordinateOK(s[i], width, check) {
      assert s[i] in s && s[i] in entries;
    }
  }

  /** The canonical form of a valid value is canonical, and holds the same coordinates. */
  lemma CanonicalIsCanonical(v: Value)
    requires Valid(v)
    ensures IsCanonical(Canonical(v))
    ensures v.Sparse? ==> multiset(Canonical(v).entries) == multiset(v.entries)
  {
    hide ShapeOf, Passes, Power, Sorted, Fit, AllPass, Indices, Values, Distinct, Increasing;
    if v.Sparse? {
      var shape := ShapeOf(v.code).value;
      SortedOK(v.entries, shape.width, shape.check);
    }
  }

  // ----- Values as bytes ----------------------------------------------------------------------------------

  function PutItem(item: Option<Bytes>): Bytes {
    if item.None? then Put(NIL_LENGTH, 4) else Put(|item.value|, 4) + item.value
  }

  function PutItems(items: seq<Option<Bytes>>): Bytes {
    if items == [] then [] else PutItem(items[0]) + PutItems(items[1..])
  }

  /** `count` items from the front of the data, which they must use up. */
  function GetItems(count: nat, data: Bytes, text: bool): Result<seq<Option<Bytes>>, CodecError>
    decreases count
  {
    if count == 0 then (if data == [] then Ok([]) else Err(Corrupt))
    else if |data| < 4 then Err(Corrupt)
    else
      var length := Get(data[..4]);
      if length == NIL_LENGTH then
        if text then Err(Corrupt)
        else
          match GetItems(count - 1, data[4..], text)
          case Err(e) => Err(e)
          case Ok(rest) => Ok([None] + rest)
      else if length > |data| - 4 then Err(Corrupt)
      else if text && !ValidUtf8(data[4..4 + length]) then Err(Corrupt)
      else
        match GetItems(count - 1, data[4 + length..], text)
        case Err(e) => Err(e)
        case Ok(rest) => Ok([Some(data[4..4 + length])] + rest)
  }

  ghost predicate ItemsOK(items: seq<Option<Bytes>>, text: bool) {
    forall i :: 0 <= i < |items| ==>
      if items[i].None? then !text else |items[i].value| < NIL_LENGTH && (text ==> ValidUtf8(items[i].value))
  }

  lemma NoItems(text: bool)
    ensures GetItems(0, PutItems([]), text) == Ok([])
  {
  }

  lemma GetNil(count: nat, rest: Bytes)
    ensures GetItems(count + 1, Put(NIL_LENGTH, 4) + rest, false) ==
            match GetItems(count, rest, false) case Err(e) => Err(e) case Ok(items) => Ok([None] + items)
  {
    PowerValues();
    GetPut(NIL_LENGTH, 4);
    hide Put, Get, ValidUtf8, Power;
    var length, data := Put(NIL_LENGTH, 4), Put(NIL_LENGTH, 4) + rest;
    assert data[..4] == length && data[4..] == rest;
  }

  lemma GetSome(count: nat, item: Bytes, rest: Bytes, text: bool)
    requires |item| < NIL_LENGTH && (text ==> ValidUtf8(item))
    ensures GetItems(count + 1, Put(|item|, 4) + item + rest, text) ==
            match GetItems(count, rest, text) case Err(e) => Err(e) case Ok(items) => Ok([Some(item)] + items)
  {
    PowerValues();
    GetPut(|item|, 4);
    hide Put, Get, ValidUtf8, Power;
    var data := Put(|item|, 4) + item + rest;
    assert data[..4] == Put(|item|, 4) && data[4..4 + |item|] == item && data[4 + |item|..] == rest;
  }

  lemma {:induction false} GetPutItems(items: seq<Option<Bytes>>, text: bool)
    requires ItemsOK(items, text)
    ensures GetItems(|items|, PutItems(items), text) == Ok(items)
    decreases |items|
  {
    hide GetItems, Put, ValidUtf8;
    if items == [] {
      NoItems(text);
    } else {
      GetPutItems(items[1..], text);
      var rest := PutItems(items[1..]);
      if items[0].None? {
        GetNil(|items| - 1, rest);
      } else {
        GetSome(|items| - 1, items[0].value, rest, text);
      }
      assert [items[0]] + items[1..] == items;
    }
  }

  /** One item read back: its bytes and what follows. */
  lemma PutItemBack(data: Bytes)
    requires |data| >= 4
    ensures Get(data[..4]) == NIL_LENGTH ==> PutItem(None) + data[4..] == data
    ensures Get(data[..4]) <= |data| - 4 ==>
      var length := Get(data[..4]);
      PutItem(Some(data[4..4 + length])) + data[4 + length..] == data
    ensures Get(data[..4]) <= NIL_LENGTH
  {
    hide Put, Get;
    PowerValues();
    PutGet(data[..4]);
    var length := Get(data[..4]);
    assert data == data[..4] + data[4..];
    if length <= |data| - 4 {
      assert data == data[..4] + data[4..4 + length] + data[4 + length..];
    }
  }

  lemma {:induction false} PutGetItems(count: nat, data: Bytes, text: bool)
    requires GetItems(count, data, text).Ok?
    ensures var items := GetItems(count, data, text).value;
      |items| == count && ItemsOK(items, text) && PutItems(items) == data
    decreases count
  {
    hide Put, Get, ValidUtf8, PutItem;
    if count > 0 {
      PutItemBack(data);
      var length := Get(data[..4]);
      var items := GetItems(count, data, text).value;
      var rest := if length == NIL_LENGTH then data[4..] else data[4 + length..];
      PutGetItems(count - 1, rest, text);
      assert items[1..] == GetItems(count - 1, rest, text).value;
    }
  }

  function Somes(texts: seq<Bytes>): (r: seq<Option<Bytes>>)
    ensures |r| == |texts|
  {
    seq(|texts|, i requires 0 <= i < |texts| => Some(texts[i]))
  }

  function Contents(items: seq<Option<Bytes>>): (r: seq<Bytes>)
    ensures |r| == |items|
  {
    seq(|items|, i requires 0 <= i < |items| => if items[i].Some? then items[i].value else [])
  }

  function PutFlags(flags: seq<bool>): (r: Bytes)
    ensures |r| == |flags|
  {
    seq(|flags|, i requires 0 <= i < |flags| => if flags[i] then 1 else 0)
  }

  function GetFlags(data: Bytes): (r: seq<bool>)
    ensures |r| == |data|
  {
    seq(|data|, i requires 0 <= i < |data| => data[i] == 1)
  }

  /** A value's type code, element count and bytes. */
  datatype Encoded = Encoded(code: nat, count: nat, data: Bytes)

  function WidthOf(code: nat): nat {
    var shape := ShapeOf(code);
    if shape.Some? && (shape.value.ScalarShape? || shape.value.FixedShape? || shape.value.SparseShape?) then shape.value.width else 0
  }

  function EncodeValue(v: Value): Encoded {
    match v
    case Null => Encoded(0, 0, [])
    case Blob(bytes) => Encoded(1, 1, bytes)
    case Text(bytes) => Encoded(2, 1, bytes)
    case Flag(flag) => Encoded(3, 1, [if flag then 1 else 0])
    case Scalar(code, bits) => Encoded(code, 1, Put(bits, WidthOf(code)))
    case Blobs(items) => Encoded(40, |items|, PutItems(items))
    case Texts(texts) => Encoded(41, |texts|, PutItems(Somes(texts)))
    case Flags(flags) => Encoded(42, |flags|, PutFlags(flags))
    case Fixed(code, elements) => Encoded(code, |elements|, PutAll(elements, WidthOf(code)))
    case Sparse(code, entries) => Encoded(code, |entries|, PutAll(Indices(entries), 4) + PutAll(Values(entries), WidthOf(code)))
  }

  function DecodeValue(e: Encoded): Result<Value, CodecError> {
    match ShapeOf(e.code)
    case None => Err(Corrupt)
    case Some(shape) =>
      match shape
      case NullShape => if e.count != 0 || e.data != [] then Err(Corrupt) else Ok(Null)
      case BlobShape => if e.count != 1 then Err(Corrupt) else Ok(Blob(e.data))
      case TextShape => if e.count != 1 || !ValidUtf8(e.data) then Err(Corrupt) else Ok(Text(e.data))
      case FlagShape => if e.count != 1 || |e.data| != 1 || e.data[0] > 1 then Err(Corrupt) else Ok(Flag(e.data[0] == 1))
      case ScalarShape(width, check) =>
        if e.count != 1 || |e.data| != width || !Passes(check, Get(e.data)) then Err(Corrupt) else Ok(Scalar(e.code, Get(e.data)))
      case BlobsShape =>
        if e.count > |e.data| / 4 then Err(Corrupt)
        else
          (match GetItems(e.count, e.data, false)
           case Err(error) => Err(error)
           case Ok(items) => Ok(Blobs(items)))
      case TextsShape =>
        if e.count > |e.data| / 4 then Err(Corrupt)
        else
          (match GetItems(e.count, e.data, true)
           case Err(error) => Err(error)
           case Ok(items) => Ok(Texts(Contents(items))))
      case FlagsShape =>
        if e.count != |e.data| || exists i :: 0 <= i < |e.data| && e.data[i] > 1 then Err(Corrupt) else Ok(Flags(GetFlags(e.data)))
      case FixedShape(width, check) =>
        if |e.data| != width * e.count then Err(Corrupt)
        else
          var elements := GetAll(e.data, e.count, width);
          if AllPass(check, elements) then Ok(Fixed(e.code, elements)) else Err(Corrupt)
      case SparseShape(width, check) =>
        if |e.data| != (4 + width) * e.count then Err(Corrupt)
        else
          SparseSplit(|e.data|, width, e.count);
          var indices := GetAll(e.data[..4 * e.count], e.count, 4);
          var values := GetAll(e.data[4 * e.count..], e.count, width);
          if Increasing(indices) && e.count <= MAX_SPARSE_DIMENSIONS && AllPass(check, values)
          then Ok(Sparse(e.code, Zip(indices, values))) else Err(Corrupt)
  }

  lemma SparseSplit(size: nat, width: nat, count: nat)
    requires size == (4 + width) * count
    ensures size == 4 * count + width * count && 4 * count <= size
  {
  }

  // ----- Value round trips ------------------------------------------------------------------------------------

  lemma SomesContents(texts: seq<Bytes>)
    ensures Contents(Somes(texts)) == texts
  {
  }

  lemma ContentsSomes(items: seq<Option<Bytes>>)
    requires ItemsOK(items, true)
    ensures Somes(Contents(items)) == items
  {
    forall i | 0 <= i < |items| ensures Somes(Contents(items))[i] == items[i] {
      assert items[i].Some?;
    }
  }

  lemma {:induction false} ItemsSize(items: seq<Option<Bytes>>)
    ensures |PutItems(items)| >= 4 * |items|
    decreases |items|
  {
    if items != [] {
      ItemsSize(items[1..]);
    }
  }

  lemma ItemsRoundTrip(v: Value)
    requires Valid(v) && (v.Blobs? || v.Texts?)
    ensures DecodeValue(EncodeValue(v)) == Ok(v)
  {
    hide PutItems, GetItems, ValidUtf8, Contents, Somes;
    var items := if v.Blobs? then v.items else Somes(v.texts);
    ItemsSize(items);
    if v.Blobs? {
      GetPutItems(items, false);
    } else {
      TextItems(v.texts);
      GetPutItems(items, true);
      SomesContents(v.texts);
    }
  }

  lemma TextItems(texts: seq<Bytes>)
    requires Valid(Texts(texts))
    ensures ItemsOK(Somes(texts), true)
  {
    hide ValidUtf8;
  }

  lemma FlagsRoundTrip(flags: seq<bool>)
    ensures DecodeValue(EncodeValue(Flags(flags))) == Ok(Flags(flags))
  {
    assert GetFlags(PutFlags(flags)) == flags;
  }

  lemma ScalarRoundTrip(code: nat, bits: nat)
    requires Valid(Scalar(code, bits))
    ensures DecodeValue(EncodeValue(Scalar(code, bits))) == Ok(Scalar(code, bits))
  {
    hide Put, Get, Passes;
    GetPut(bits, WidthOf(code));
  }

  lemma FixedRoundTrip(code: nat, elements: seq<nat>)
    requires Valid(Fixed(code, elements))
    ensures DecodeValue(EncodeValue(Fixed(code, elements))) == Ok(Fixed(code, elements))
  {
    hide PutAll, GetAll, Passes, AllPass, Fit;
    GetAllPutAll(elements, WidthOf(code));
  }

  lemma SparseRoundTrip(code: nat, entries: seq<Coordinate>)
    requires IsCanonical(Sparse(code, entries))
    ensures DecodeValue(EncodeValue(Sparse(code, entries))) == Ok(Sparse(code, entries))
  {
    hide PutAll, GetAll, Passes, AllPass, Fit, Indices, Values, Increasing;
    var width, count := WidthOf(code), |entries|;
    var indices, values := Indices(entries), Values(entries);
    GetAllPutAll(indices, 4);
    GetAllPutAll(values, width);
    var data := PutAll(indices, 4) + PutAll(values, width);
    SparseSize(width, count);
    assert data[..4 * count] == PutAll(indices, 4) && data[4 * count..] == PutAll(values, width);
    ZipBack(entries);
  }

  lemma SparseSize(width: nat, count: nat)
    ensures 4 * count + width * count == (4 + width) * count
  {
  }

  lemma ZipBack(entries: seq<Coordinate>)
    ensures Zip(Indices(entries), Values(entries)) == entries
  {
  }

  /** Decoding the encoding of a canonical value gives the value. */
  lemma ValueRoundTrip(v: Value)
    requires IsCanonical(v)
    ensures DecodeValue(EncodeValue(v)) == Ok(v)
  {
    match v {
      case Null =>
      case Blob(_) =>
      case Text(_) =>
      case Flag(_) =>
      case Scalar(code, bits) => ScalarRoundTrip(code, bits);
      case Blobs(_) => ItemsRoundTrip(v);
      case Texts(_) => ItemsRoundTrip(v);
      case Flags(flags) => FlagsRoundTrip(flags);
      case Fixed(code, elements) => FixedRoundTrip(code, elements);
      case Sparse(code, entries) => SparseRoundTrip(code, entries);
    }
  }

  lemma BlobsUnique(e: Encoded)
    requires DecodeValue(e).Ok? && e.code == 40
    ensures var v := DecodeValue(e).value;
      IsCanonical(v) && EncodeValue(v) == e
  {
    assert ShapeOf(40) == Some(BlobsShape);
    hide PutItems, GetItems, ValidUtf8, ShapeOf, GetAll, Get, Passes, GetFlags, Increasing, AllPass;
    PutGetItems(e.count, e.data, false);
  }

  lemma TextsUnique(e: Encoded)
    requires DecodeValue(e).Ok? && e.code == 41
    ensures var v := DecodeValue(e).value;
      IsCanonical(v) && EncodeValue(v) == e
  {
    assert ShapeOf(41) == Some(TextsShape);
    hide PutItems, GetItems, ValidUtf8, Contents, Somes, ShapeOf, GetAll, Get, Passes, GetFlags, Increasing, AllPass, ItemsOK;
    PutGetItems(e.count, e.data, true);
    var items := GetItems(e.count, e.data, true).value;
    ContentsSomes(items);
    TextsOK(items);
    hide Valid;
  }

  lemma TextsOK(items: seq<Option<Bytes>>)
    requires ItemsOK(items, true)
    ensures Valid(Texts(Contents(items)))
  {
    hide ValidUtf8;
    forall i | 0 <= i < |items| ensures ValidUtf8(Contents(items)[i]) && |Contents(items)[i]| < NIL_LENGTH {
      assert items[i].Some?;
    }
  }

  lemma FlagsBack(data: Bytes)
    requires forall i :: 0 <= i < |data| ==> data[i] <= 1
    ensures PutFlags(GetFlags(data)) == data
  {
  }

  lemma FlagsUnique(e: Encoded)
    requires DecodeValue(e).Ok? && e.code == 42
    ensures var v := DecodeValue(e).value;
      IsCanonical(v) && EncodeValue(v) == e
  {
    assert ShapeOf(42) == Some(FlagsShape);
    hide ShapeOf, GetItems, GetAll, Get, Passes, Increasing, AllPass, ValidUtf8;
    FlagsBack(e.data);
  }

  lemma NumbersUnique(e: Encoded)
    requires DecodeValue(e).Ok? && ShapeOf(e.code).Some?
    requires ShapeOf(e.code).value.ScalarShape? || ShapeOf(e.code).value.FixedShape?
    ensures var v := DecodeValue(e).value;
      IsCanonical(v) && EncodeValue(v) == e
  {
    hide PutAll, GetAll, Put, Get, Passes, AllPass, Fit;
    if ShapeOf(e.code).value.ScalarShape? {
      PutGet(e.data);
    } else {
      PutAllGetAll(e.data, e.count, WidthOf(e.code));
    }
  }

  lemma SparseUnique(e: Encoded)
    requires DecodeValue(e).Ok? && ShapeOf(e.code).Some? && ShapeOf(e.code).value.SparseShape?
    ensures var v := DecodeValue(e).value;
      IsCanonical(v) && EncodeValue(v) == e
  {
    hide PutAll, GetAll, Passes, AllPass, Fit, Indices, Values, Zip, Increasing, Distinct;
    var width, count := WidthOf(e.code), e.count;
    SparseSplit(|e.data|, width, count);
    var head, tail := e.data[..4 * count], e.data[4 * count..];
    assert e.data == head + tail;
    PutAllGetAll(head, count, 4);
    PutAllGetAll(tail, count, width);
    AscendingDistinct(GetAll(head, count, 4));
  }

  lemma AscendingDistinct(indices: seq<nat>)
    requires Increasing(indices)
    ensures Distinct(indices)
  {
  }

  /** A value that decodes is canonical, and its bytes are its only encoding. */
  lemma ValueUnique(e: Encoded)
    requires DecodeValue(e).Ok?
    ensures var v := DecodeValue(e).value;
      IsCanonical(v) && EncodeValue(v) == e
  {
    var shape := ShapeOf(e.code).value;
    match shape {
      case NullShape =>
      case BlobShape =>
      case TextShape =>
      case FlagShape =>
      case ScalarShape(_, _) => NumbersUnique(e);
      case FixedShape(_, _) => NumbersUnique(e);
      case BlobsShape => BlobsUnique(e);
      case TextsShape => TextsUnique(e);
      case FlagsShape => FlagsUnique(e);
      case SparseShape(_, _) => SparseUnique(e);
    }
  }

  // ----- Names ----------------------------------------------------------------------------------------------------

  const MAX_FIELDS := 1_024 + 5
  const FIELD_HEADER_SIZE := 16
  const HEADER_SIZE := 32
  const MAX_PAYLOAD := 64 * 1024 * 1024
  const VERSION := 1
  const MAGIC: Bytes := [0x5A, 0x56, 0x45, 0x43, 0x44, 0x4F, 0x43, 0]

  /** Letters, digits, `_` and `-`, at most 32 of them. */
  predicate ValidName(name: Bytes) {
    && 1 <= |name| <= 32
    && forall i :: 0 <= i < |name| ==>
         0x61 <= name[i] <= 0x7A || 0x41 <= name[i] <= 0x5A || 0x30 <= name[i] <= 0x39 || name[i] == 0x5F || name[i] == 0x2D
  }

  /** Strict byte order. */
  predicate Before(a: Bytes, b: Bytes)
    decreases |a|
  {
    b != [] && (a == [] || a[0] < b[0] || (a[0] == b[0] && Before(a[1..], b[1..])))
  }

  lemma {:induction false} BeforeTransitive(a: Bytes, b: Bytes, c: Bytes)
    requires Before(a, b) && Before(b, c)
    ensures Before(a, c)
    decreases |a|
  {
    if a != [] && a[0] == b[0] == c[0] {
      BeforeTransitive(a[1..], b[1..], c[1..]);
    }
  }

  lemma {:induction false} BeforeTotal(a: Bytes, b: Bytes)
    ensures a == b || Before(a, b) || Before(b, a)
    decreases |a|
  {
    if a != [] && b != [] && a[0] == b[0] {
      BeforeTotal(a[1..], b[1..]);
      assert a == [a[0]] + a[1..] && b == [b[0]] + b[1..];
    }
  }

  // ----- Fields -----------------------------------------------------------------------------------------------------

  datatype Field = Field(name: Bytes, value: Value)

  /** A document's fields in name order, each name once. */
  ghost predicate Ordered(fields: seq<Field>) {
    forall i :: 0 <= i < |fields| - 1 ==> Before(fields[i].name, fields[i + 1].name)
  }

  ghost predicate FieldsOK(fields: seq<Field>) {
    Ordered(fields) && forall i :: 0 <= i < |fields| ==> ValidName(fields[i].name) && IsCanonical(fields[i].value)
  }

  function PutField(f: Field): Bytes {
    var e := EncodeValue(f.value);
    Put(|f.name|, 2) + Put(e.code, 2) + Put(e.count, 4) + Put(|e.data|, 8) + f.name + e.data
  }

  function PutFields(fields: seq<Field>): Bytes {
    if fields == [] then [] else PutField(fields[0]) + PutFields(fields[1..])
  }

  /** The field at the front of a payload, and where it ends. */
  datatype Next = NoField | Next(field: Field, end: nat)

  function NextField(payload: Bytes, first: bool, previous: Bytes): (r: Next)
    ensures r.Next? ==> 0 < r.end <= |payload|
  {
    if |payload| < FIELD_HEADER_SIZE then NoField
    else
      var nameLength, dataLength := Get(payload[..2]), Get(payload[8..16]);
      if nameLength == 0 || nameLength > |payload| - 16 || dataLength > |payload| - 16 - nameLength then NoField
      else
        var name := payload[16..16 + nameLength];
        if !ValidName(name) || (!first && !Before(previous, name)) then NoField
        else
          var end := 16 + nameLength + dataLength;
          match DecodeValue(Encoded(Get(payload[2..4]), Get(payload[4..8]), payload[16 + nameLength..end]))
          case Err(e) => NoField
          case Ok(value) => Next(Field(name, value), end)
  }

  /** `count` fields from the front of the payload, each name after the one before; they must use it up. */
  function GetFields(count: nat, payload: Bytes, first: bool, previous: Bytes): Result<seq<Field>, CodecError>
    decreases count
  {
    if count == 0 then (if payload == [] then Ok([]) else Err(Corrupt))
    else
      match NextField(payload, first, previous)
      case NoField => Err(Corrupt)
      case Next(f, end) =>
        match GetFields(count - 1, payload[end..], false, f.name)
        case Err(e) => Err(e)
        case Ok(rest) => Ok([f] + rest)
  }

  lemma CodeFits(v: Value)
    requires Valid(v)
    ensures EncodeValue(v).code < Power(2)
  {
    PowerValues();
  }

  /** No value has more elements than bytes, except the lone empty scalar. */
  lemma CountFits(v: Value)
    requires Valid(v)
    ensures EncodeValue(v).count <= |EncodeValue(v).data| + 1
  {
    match v {
      case Blobs(items) => ItemsSize(items);
      case Texts(texts) => ItemsSize(Somes(texts));
      case Fixed(code, elements) => WidthPositive(WidthOf(code), |elements|);
      case Sparse(code, entries) =>
      case _ =>
    }
  }

  lemma WidthPositive(width: nat, count: nat)
    ensures width > 0 ==> width * count >= count
  {
  }

  lemma FieldParts(f: Field, rest: Bytes)
    ensures var e, s := EncodeValue(f.value), PutField(f) + rest;
      var end := 16 + |f.name| + |e.data|;
      && |s| == end + |rest|
      && s[..2] == Put(|f.name|, 2) && s[2..4] == Put(e.code, 2) && s[4..8] == Put(e.count, 4) && s[8..16] == Put(|e.data|, 8)
      && s[16..16 + |f.name|] == f.name && s[16 + |f.name|..end] == e.data && s[end..] == rest
  {
    hide Put, EncodeValue;
  }

  /** The number of a value's type. */
  function TypeNumber(v: Value): nat {
    match v
    case Null => 0
    case Blob(_) => 1
    case Text(_) => 2
    case Flag(_) => 3
    case Blobs(_) => 40
    case Texts(_) => 41
    case Flags(_) => 42
    case Scalar(code, _) => code
    case Fixed(code, _) => code
    case Sparse(code, _) => code
  }

  /** The bytes of a field: the numbers lowest byte first, the name and the value's data. */
  lemma FieldBytes(f: Field)
    ensures var e, s := EncodeValue(f.value), PutField(f);
      && |s| == 16 + |f.name| + |e.data|
      && NumberAt(s, 0, |f.name|, 2) && NumberAt(s, 2, TypeNumber(f.value), 2) && NumberAt(s, 4, e.count, 4) && NumberAt(s, 8, |e.data|, 8)
      && s[16..16 + |f.name|] == f.name && s[16 + |f.name|..] == e.data
  {
    var e, s := EncodeValue(f.value), PutField(f);
    FieldParts(f, []);
    assert s + [] == s;
    hide Put, PutField, PutAll, PutItems, NumberAt;
    assert e.code == TypeNumber(f.value);
    hide EncodeValue;
    NumberIsAt(s, 0, |f.name|, 2);
    NumberIsAt(s, 2, e.code, 2);
    NumberIsAt(s, 4, e.count, 4);
    NumberIsAt(s, 8, |e.data|, 8);
  }

  /** The data of a value: a number or every element lowest byte first, sparse indices before values, and the
      length of every item, 2^32 - 1 for a nil one, before its bytes. */
  lemma ValueBytes(v: Value)
    requires Valid(v)
    ensures var d := EncodeValue(v).data;
      match v
      case Null => d == []
      case Blob(bytes) => d == bytes
      case Text(bytes) => d == bytes
      case Flag(flag) => d == [if flag then 1 else 0]
      case Scalar(code, bits) => |d| == WidthOf(code) && NumberAt(d, 0, bits, WidthOf(code))
      case Fixed(code, elements) => NumbersAt(d, 0, elements, WidthOf(code))
      case Sparse(code, entries) =>
        NumbersAt(d, 0, Indices(entries), 4) && NumbersAt(d, 4 * |entries|, Values(entries), WidthOf(code))
      case Blobs(items) => items != [] ==> ItemAt(d, items[0]) && d[|PutItem(items[0])|..] == EncodeValue(Blobs(items[1..])).data
      case Texts(texts) => texts != [] ==> ItemAt(d, Some(texts[0])) && d[4 + |texts[0]|..] == EncodeValue(Texts(texts[1..])).data
      case Flags(flags) => |d| == |flags| && forall i :: 0 <= i < |d| ==> d[i] == if flags[i] then 1 else 0
  {
    hide Put, PutAll, ShapeOf, WidthOf, ValidUtf8, Fit, AllPass, Passes, NumberAt, NumbersAt, ItemAt, PutItem, Indices, Values, Increasing, Distinct;
    match v {
      case Scalar(code, bits) => OneNumber(bits, WidthOf(code));
      case Fixed(code, elements) => OneList(elements, WidthOf(code));
      case Sparse(code, entries) => TwoLists(Indices(entries), 4, Values(entries), WidthOf(code));
      case Blobs(items) =>
        if items != [] {
          ItemsStart(items);
        }
      case Texts(texts) =>
        if texts != [] {
          ItemsStart(Somes(texts));
          assert Somes(texts)[1..] == Somes(texts[1..]);
          ItemSize(texts[0]);
        }
      case _ =>
    }
  }

  lemma ItemSize(item: Bytes)
    ensures |PutItem(Some(item))| == 4 + |item|
  {
  }

  lemma ItemsStart(items: seq<Option<Bytes>>)
    requires items != []
    ensures ItemAt(PutItems(items), items[0]) && PutItems(items)[|PutItem(items[0])|..] == PutItems(items[1..])
  {
    ItemIsAt(items[0], PutItems(items[1..]));
    hide PutItem, ItemAt;
  }

  /** Element `k` of a list stands at `width * k`. */
  ghost predicate NumbersAt(s: Bytes, offset: nat, values: seq<nat>, width: nat) {
    && |s| >= offset + width * |values|
    && forall k: nat :: k < |values| ==> NumberAt(s, offset + width * k, values[k], width)
  }

  lemma NumbersAreAt(front: Bytes, values: seq<nat>, width: nat, rest: Bytes)
    ensures NumbersAt(front + PutAll(values, width) + rest, |front|, values, width)
  {
    var all := PutAll(values, width);
    var s := front + all + rest;
    hide PutAll, Put, NumberAt;
    forall k: nat | k < |values| ensures NumberAt(s, |front| + width * k, values[k], width) {
      PutAllBytes(values, width, k);
      assert s[|front| + width * k..|front| + width * k + width] == all[width * k..width * k + width];
      NumberIsAt(s, |front| + width * k, values[k], width);
    }
  }

  lemma OneNumber(n: nat, width: nat)
    ensures NumberAt(Put(n, width), 0, n, width)
  {
    assert Put(n, width)[0..0 + width] == Put(n, width);
    NumberIsAt(Put(n, width), 0, n, width);
  }

  lemma OneList(values: seq<nat>, width: nat)
    ensures NumbersAt(PutAll(values, width), 0, values, width)
  {
    NumbersAreAt([], values, width, []);
    assert [] + PutAll(values, width) + [] == PutAll(values, width);
  }

  lemma TwoLists(first: seq<nat>, w: nat, second: seq<nat>, width: nat)
    ensures var d := PutAll(first, w) + PutAll(second, width);
      NumbersAt(d, 0, first, w) && NumbersAt(d, w * |first|, second, width)
  {
    var a, b := PutAll(first, w), PutAll(second, width);
    hide NumbersAt, PutAll;
    NumbersAreAt([], first, w, b);
    NumbersAreAt(a, second, width, []);
    assert [] + a + b == a + b && a + b + [] == a + b;
  }

  ghost predicate ItemAt(s: Bytes, item: Option<Bytes>) {
    if item.None? then |s| >= 4 && s[..4] == [0xFF, 0xFF, 0xFF, 0xFF]
    else NumberAt(s, 0, |item.value|, 4) && |s| >= 4 + |item.value| && s[4..4 + |item.value|] == item.value
  }

  lemma ItemIsAt(item: Option<Bytes>, rest: Bytes)
    ensures ItemAt(PutItem(item) + rest, item) && (PutItem(item) + rest)[|PutItem(item)|..] == rest
  {
    var s := PutItem(item) + rest;
    if item.Some? {
      hide Put, NumberAt;
      assert s[0..4] == Put(|item.value|, 4);
      NumberIsAt(s, 0, |item.value|, 4);
    } else {
      NilBytes();
      hide Put;
    }
  }

  lemma NilBytes()
    ensures Put(NIL_LENGTH, 4) == [0xFF, 0xFF, 0xFF, 0xFF]
  {
  }

  lemma NextRoundTrip(f: Field, rest: Bytes, first: bool, previous: Bytes)
    requires ValidName(f.name) && IsCanonical(f.value) && |PutField(f)| <= MAX_PAYLOAD
    requires first || Before(previous, f.name)
    ensures NextField(PutField(f) + rest, first, previous) == Next(f, |PutField(f)|)
  {
    FieldSize(f);
    hide Put, Get, EncodeValue, DecodeValue, PutField, IsCanonical, ValidName, Before;
    FieldParts(f, rest);
    FieldNumbers(f);
    ValueRoundTrip(f.value);
  }

  lemma FieldSize(f: Field)
    ensures |PutField(f)| == 16 + |f.name| + |EncodeValue(f.value).data|
  {
    hide Put, EncodeValue;
  }

  lemma {:induction false} FieldsRoundTrip(fields: seq<Field>, first: bool, previous: Bytes)
    requires FieldsOK(fields) && |PutFields(fields)| <= MAX_PAYLOAD
    requires fields != [] && !first ==> Before(previous, fields[0].name)
    ensures GetFields(|fields|, PutFields(fields), first, previous) == Ok(fields)
    decreases |fields|
  {
    hide NextField, PutField, IsCanonical, ValidName, Before;
    if fields != [] {
      var f, rest := fields[0], fields[1..];
      RestOK(fields);
      NextRoundTrip(f, PutFields(rest), first, previous);
      assert (PutField(f) + PutFields(rest))[|PutField(f)|..] == PutFields(rest);
      FieldsRoundTrip(rest, false, f.name);
      assert [f] + rest == fields;
    }
  }

  lemma RestOK(fields: seq<Field>)
    requires FieldsOK(fields) && fields != []
    ensures FieldsOK(fields[1..]) && (|fields| > 1 ==> Before(fields[0].name, fields[1..][0].name))
  {
    hide Before, ValidName, IsCanonical;
    var rest := fields[1..];
    assert forall i :: 0 <= i < |rest| ==> rest[i] == fields[i + 1];
  }

  /** A field's numbers fit their header slots. */
  lemma FieldNumbers(f: Field)
    requires ValidName(f.name) && IsCanonical(f.value) && |EncodeValue(f.value).data| <= MAX_PAYLOAD
    ensures var e := EncodeValue(f.value);
      && Get(Put(|f.name|, 2)) == |f.name| > 0
      && Get(Put(e.code, 2)) == e.code && Get(Put(e.count, 4)) == e.count && Get(Put(|e.data|, 8)) == |e.data|
  {
    CodeFits(f.value);
    CountFits(f.value);
    hide EncodeValue, Put, Get;
    PowerValues();
    var e := EncodeValue(f.value);
    GetPut(|f.name|, 2);
    GetPut(e.code, 2);
    GetPut(e.count, 4);
    GetPut(|e.data|, 8);
  }

  /** A field's bytes are the encoding of what was read from them. */
  lemma FieldBack(payload: Bytes, nameLength: nat, dataLength: nat, code: nat, count: nat, v: Value)
    requires 16 + nameLength + dataLength <= |payload|
    requires Get(payload[..2]) == nameLength && Get(payload[2..4]) == code && Get(payload[4..8]) == count && Get(payload[8..16]) == dataLength
    requires EncodeValue(v) == Encoded(code, count, payload[16 + nameLength..16 + nameLength + dataLength])
    ensures PutField(Field(payload[16..16 + nameLength], v)) == payload[..16 + nameLength + dataLength]
  {
    hide Put, Get, EncodeValue;
    PutGet(payload[..2]);
    PutGet(payload[2..4]);
    PutGet(payload[4..8]);
    PutGet(payload[8..16]);
    var end := 16 + nameLength + dataLength;
    assert payload[..end] == payload[..2] + payload[2..4] + payload[4..8] + payload[8..16]
        + payload[16..16 + nameLength] + payload[16 + nameLength..end];
  }

  lemma NextUnique(payload: Bytes, first: bool, previous: Bytes)
    requires NextField(payload, first, previous).Next?
    ensures var next := NextField(payload, first, previous);
      && PutField(next.field) == payload[..next.end]
      && ValidName(next.field.name) && IsCanonical(next.field.value)
      && (first || Before(previous, next.field.name))
  {
    hide Put, Get, EncodeValue, DecodeValue, IsCanonical, ValidName, Before, PutField;
    var nameLength, dataLength := Get(payload[..2]), Get(payload[8..16]);
    var end := 16 + nameLength + dataLength;
    var e := Encoded(Get(payload[2..4]), Get(payload[4..8]), payload[16 + nameLength..end]);
    ValueUnique(e);
    FieldBack(payload, nameLength, dataLength, e.code, e.count, DecodeValue(e).value);
  }

  lemma {:induction false} FieldsUnique(count: nat, payload: Bytes, first: bool, previous: Bytes)
    requires GetFields(count, payload, first, previous).Ok?
    ensures var fields := GetFields(count, payload, first, previous).value;
      && |fields| == count && FieldsOK(fields) && PutFields(fields) == payload
      && (fields != [] && !first ==> Before(previous, fields[0].name))
    decreases count
  {
    hide NextField, IsCanonical, ValidName, Before, PutField, FieldsOK;
    if count == 0 {
      NoFieldsOK();
    } else {
      NextUnique(payload, first, previous);
      var next := NextField(payload, first, previous);
      var rest := GetFields(count - 1, payload[next.end..], false, next.field.name).value;
      FieldsUnique(count - 1, payload[next.end..], false, next.field.name);
      assert payload == payload[..next.end] + payload[next.end..];
      assert ([next.field] + rest)[1..] == rest;
      PrependOK([next.field] + rest);
    }
  }

  lemma NoFieldsOK()
    ensures FieldsOK([])
  {
  }

  lemma PrependOK(fields: seq<Field>)
    requires fields != [] && FieldsOK(fields[1..]) && ValidName(fields[0].name) && IsCanonical(fields[0].value)
    requires |fields| > 1 ==> Before(fields[0].name, fields[1..][0].name)
    ensures FieldsOK(fields)
  {
    hide Before, ValidName, IsCanonical;
    var rest := fields[1..];
    forall i | 0 <= i < |fields| - 1 ensures Before(fields[i].name, fields[i + 1].name) {
      if i > 0 {
        assert Before(rest[i - 1].name, rest[i].name);
      }
    }
    forall i | 0 <= i < |fields| ensures ValidName(fields[i].name) && IsCanonical(fields[i].value) {
      if i > 0 {
        assert fields[i] == rest[i - 1];
      }
    }
  }

  // ----- Documents ----------------------------------------------------------------------------------------------------

  function HeaderFront(count: nat, payload: Bytes, crc: Checksum): (s: Bytes)
    ensures |s| == 28
  {
    MAGIC + Put(VERSION, 2) + Put(HEADER_SIZE, 2) + Put(count, 4) + Put(|payload|, 8) + Put(Sum(crc, payload), 4)
  }

  /** The whole payload of fields in order. */
  function Marshal(fields: seq<Field>, crc: Checksum): Result<Bytes, CodecError> {
    var payload := PutFields(fields);
    if |fields| > MAX_FIELDS then Err(InvalidField)
    else if |payload| > MAX_PAYLOAD then Err(TooLarge)
    else
      var front := HeaderFront(|fields|, payload, crc);
      Ok(front + Put(Sum(crc, front), 4) + payload)
  }

  function Unmarshal(s: Bytes, crc: Checksum): Result<seq<Field>, CodecError> {
    if |s| < HEADER_SIZE || s[..8] != MAGIC || Get(s[8..10]) != VERSION || Get(s[10..12]) != HEADER_SIZE
       || Sum(crc, s[..28]) != Get(s[28..32]) then Err(Corrupt)
    else
      var count, payload := Get(s[12..16]), s[32..];
      if count > MAX_FIELDS || Get(s[16..24]) > MAX_PAYLOAD || Get(s[16..24]) != |payload| || Sum(crc, payload) != Get(s[24..28])
      then Err(Corrupt)
      else GetFields(count, payload, true, [])
  }

  lemma FrontParts(count: nat, payload: Bytes, crc: Checksum, rest: Bytes)
    ensures var s := HeaderFront(count, payload, crc) + rest;
      && s[..28] == HeaderFront(count, payload, crc) && s[28..] == rest
      && s[..8] == MAGIC && s[8..10] == Put(VERSION, 2) && s[10..12] == Put(HEADER_SIZE, 2) && s[12..16] == Put(count, 4)
      && s[16..24] == Put(|payload|, 8) && s[24..28] == Put(Sum(crc, payload), 4)
  {
    hide Put;
  }

  /** The bytes of a document: the letters ZVECDOC and a zero, version 1, header size 32, then the field count,
      the size and checksum of the fields, the checksum of what precedes it, and the fields. */
  lemma DocumentBytes(fields: seq<Field>, crc: Checksum)
    requires Marshal(fields, crc).Ok?
    ensures var s, payload := Marshal(fields, crc).value, PutFields(fields);
      && |s| == 32 + |payload| && s[32..] == payload
      && s[0] == 'Z' as int && s[1] == 'V' as int && s[2] == 'E' as int && s[3] == 'C' as int
      && s[4] == 'D' as int && s[5] == 'O' as int && s[6] == 'C' as int && s[7] == 0
      && s[8] == 1 && s[9] == 0 && s[10] == 32 && s[11] == 0
      && NumberAt(s, 12, |fields|, 4) && NumberAt(s, 16, |payload|, 8)
      && NumberAt(s, 24, crc(payload) % 0x1_0000_0000, 4) && NumberAt(s, 28, crc(s[..28]) % 0x1_0000_0000, 4)
  {
    hide PutFields, Put, HeaderFront, NumberAt;
    var payload := PutFields(fields);
    var front := HeaderFront(|fields|, payload, crc);
    var sum := Put(Sum(crc, front), 4);
    var s := Marshal(fields, crc).value;
    FrontParts(|fields|, payload, crc, sum + payload);
    assert s == front + (sum + payload);
    assert s[28..32] == sum && s[32..] == payload;
    NumberIsAt(s, 12, |fields|, 4);
    NumberIsAt(s, 16, |payload|, 8);
    NumberIsAt(s, 24, Sum(crc, payload), 4);
    NumberIsAt(s, 28, Sum(crc, front), 4);
    ConstantBytes();
    FirstBytes(s);
    hide Marshal;
  }

  lemma FirstBytes(s: Bytes)
    requires |s| >= 12 && s[..8] == MAGIC && s[8..10] == [1, 0] && s[10..12] == [32, 0]
    ensures s[0] == 'Z' as int && s[1] == 'V' as int && s[2] == 'E' as int && s[3] == 'C' as int
    ensures s[4] == 'D' as int && s[5] == 'O' as int && s[6] == 'C' as int && s[7] == 0
    ensures s[8] == 1 && s[9] == 0 && s[10] == 32 && s[11] == 0
  {
    assert s[8] == s[8..10][0] && s[9] == s[8..10][1] && s[10] == s[10..12][0] && s[11] == s[10..12][1];
    assert forall i :: 0 <= i < 8 ==> s[i] == s[..8][i];
  }

  lemma ConstantBytes()
    ensures Put(VERSION, 2) == [1, 0] && Put(HEADER_SIZE, 2) == [32, 0]
  {
  }

  /** The document round trip: what was marshalled unmarshals to the same fields. */
  lemma DocumentRoundTrip(fields: seq<Field>, crc: Checksum)
    requires FieldsOK(fields) && Marshal(fields, crc).Ok?
    ensures Unmarshal(Marshal(fields, crc).value, crc) == Ok(fields)
  {
    hide Put, Get, HeaderFront, PutFields, GetFields, FieldsOK;
    var payload := PutFields(fields);
    var front := HeaderFront(|fields|, payload, crc);
    var sum := Sum(crc, front);
    var s := Marshal(fields, crc).value;
    PowerValues();
    GetPut(VERSION, 2);
    GetPut(HEADER_SIZE, 2);
    GetPut(|fields|, 4);
    GetPut(|payload|, 8);
    GetPut(Sum(crc, payload), 4);
    GetPut(sum, 4);
    FrontParts(|fields|, payload, crc, Put(sum, 4) + payload);
    assert s == front + (Put(sum, 4) + payload);
    assert s[28..32] == Put(sum, 4) && s[32..] == payload;
    FieldsRoundTripWhole(fields);
  }

  lemma FieldsRoundTripWhole(fields: seq<Field>)
    requires FieldsOK(fields) && |PutFields(fields)| <= MAX_PAYLOAD
    ensures GetFields(|fields|, PutFields(fields), true, []) == Ok(fields)
  {
    FieldsRoundTrip(fields, true, []);
  }

  /** Every payload that unmarshals is the one marshalling of its fields, which are valid, canonical and
      in order. */
  lemma DocumentUnique(s: Bytes, crc: Checksum)
    requires Unmarshal(s, crc).Ok?
    ensures FieldsOK(Unmarshal(s, crc).value) && Marshal(Unmarshal(s, crc).value, crc) == Ok(s)
  {
    hide Put, Get, PutFields, GetFields, FieldsOK;
    var count, payload := Get(s[12..16]), s[32..];
    FieldsUniqueWhole(count, payload);
    PowerValues();
    PutGet(s[8..10]);
    PutGet(s[10..12]);
    PutGet(s[12..16]);
    PutGet(s[16..24]);
    PutGet(s[24..28]);
    PutGet(s[28..32]);
    assert s[..28] == s[..8] + s[8..10] + s[10..12] + s[12..16] + s[16..24] + s[24..28];
    assert HeaderFront(count, payload, crc) == s[..28];
    assert s == s[..28] + s[28..32] + s[32..];
  }

  lemma FieldsUniqueWhole(count: nat, payload: Bytes)
    requires GetFields(count, payload, true, []).Ok?
    ensures var fields := GetFields(count, payload, true, []).value;
      |fields| == count && FieldsOK(fields) && PutFields(fields) == payload
  {
    FieldsUnique(count, payload, true, []);
  }

  // ----- Field maps ---------------------------------------------------------------------------------------------------

  /** Fields by name. */
  function FieldMap(fields: seq<Field>): map<Bytes, Value> {
    if fields == [] then map[]
    else FieldMap(fields[..|fields| - 1])[fields[|fields| - 1].name := fields[|fields| - 1].value]
  }

  ghost function CanonicalMap(fields: map<Bytes, Value>): map<Bytes, Value> {
    map name | name in fields :: Canonical(fields[name])
  }

  /** Field maps that can be encoded. */
  ghost predicate MapOK(fields: map<Bytes, Value>) {
    && |fields| <= MAX_FIELDS
    && (forall name :: name in fields ==> ValidName(name) && Valid(fields[name]))
  }

  method LeastName(names: set<Bytes>) returns (least: Bytes)
    requires names != {}
    ensures least in names && forall n :: n in names && n != least ==> Before(least, n)
  {
    least :| least in names;
    var rest := names - {least};
    while rest != {}
      invariant rest <= names && least in names
      invariant forall n :: n in names && n !in rest && n != least ==> Before(least, n)
      decreases |rest|
    {
      var n :| n in rest;
      rest := rest - {n};
      BeforeTotal(least, n);
      if Before(n, least) {
        forall m | m in names && m !in rest && m != n ensures Before(n, m) {
          if m != least {
            BeforeTransitive(n, least, m);
          }
        }
        least := n;
      }
    }
  }

  /** The names in byte order. */
  method SortNames(names: set<Bytes>) returns (sorted: seq<Bytes>)
    ensures |sorted| == |names| && forall n :: n in sorted <==> n in names
    ensures forall i :: 0 <= i < |sorted| - 1 ==> Before(sorted[i], sorted[i + 1])
  {
    sorted := [];
    var rest := names;
    while rest != {}
      invariant rest <= names && |sorted| + |rest| == |names|
      invariant forall n :: n in sorted <==> n in names && n !in rest
      invariant forall i :: 0 <= i < |sorted| - 1 ==> Before(sorted[i], sorted[i + 1])
      invariant sorted != [] ==> forall n :: n in rest ==> Before(sorted[|sorted| - 1], n)
      decreases |rest|
    {
      var least := LeastName(rest);
      sorted := sorted + [least];
      rest := rest - {least};
    }
  }

  lemma {:induction false} FieldMapHas(fields: seq<Field>, i: nat)
    requires i < |fields|
    ensures fields[i].name in FieldMap(fields)
    decreases |fields|
  {
    if i < |fields| - 1 {
      FieldMapHas(fields[..|fields| - 1], i);
    }
  }

  lemma FieldsAppend(fields: seq<Field>, f: Field)
    ensures PutFields(fields + [f]) == PutFields(fields) + PutField(f)
    decreases |fields|
  {
    hide PutField;
    if fields == [] {
      assert [f][1..] == [];
      assert fields + [f] == [f];
    } else {
      FieldsAppend(fields[1..], f);
      assert (fields + [f])[1..] == fields[1..] + [f];
    }
  }

  lemma OrderedMap(fields: map<Bytes, Value>, names: seq<Bytes>, ordered: seq<Field>)
    requires MapOK(fields) && |ordered| == |names| && forall n :: n in names <==> n in fields
    requires forall i :: 0 <= i < |names| - 1 ==> Before(names[i], names[i + 1])
    requires forall i :: 0 <= i < |names| ==> names[i] in fields && ordered[i] == Field(names[i], Canonical(fields[names[i]]))
    ensures FieldsOK(ordered) && FieldMap(ordered) == CanonicalMap(fields)
  {
    hide Before, Valid, IsCanonical, Canonical, FieldMap, ValidName;
    forall i | 0 <= i < |ordered| ensures ValidName(ordered[i].name) && IsCanonical(ordered[i].value) {
      assert names[i] in fields;
      CanonicalIsCanonical(fields[names[i]]);
    }
    MapOfOrdered(fields, names, ordered);
    MapHasAll(fields, names, ordered);
  }

  lemma MapHasAll(fields: map<Bytes, Value>, names: seq<Bytes>, ordered: seq<Field>)
    requires |ordered| == |names| && forall n :: n in names <==> n in fields
    requires forall i :: 0 <= i < |names| ==> ordered[i].name == names[i]
    ensures forall n :: n in fields ==> n in FieldMap(ordered)
  {
    hide FieldMap;
    forall n | n in fields ensures n in FieldMap(ordered) {
      assert n in names;
      var i :| 0 <= i < |names| && names[i] == n;
      FieldMapHas(ordered, i);
    }
  }

  lemma {:induction false} MapOfOrdered(fields: map<Bytes, Value>, names: seq<Bytes>, ordered: seq<Field>)
    requires |ordered| == |names|
    requires forall i :: 0 <= i < |names| ==> names[i] in fields && ordered[i] == Field(names[i], Canonical(fields[names[i]]))
    ensures forall n :: n in FieldMap(ordered) ==> n in fields && FieldMap(ordered)[n] == Canonical(fields[n])
    decreases |names|
  {
    if names != [] {
      MapOfOrdered(fields, names[..|names| - 1], ordered[..|names| - 1]);
    }
  }

  /** Encode the fields of sorted names one after the other; a value that cannot be encoded ends it. */
  method EncodeFields(fields: map<Bytes, Value>, names: seq<Bytes>) returns (ok: bool, payload: Bytes, ghost ordered: seq<Field>)
    requires forall n :: n in names ==> n in fields
    ensures ok <==> forall n :: n in names ==> Valid(fields[n])
    ensures ok ==> |ordered| == |names| && payload == PutFields(ordered)
    ensures ok ==> forall i :: 0 <= i < |names| ==> ordered[i] == Field(names[i], Canonical(fields[names[i]]))
  {
    hide PutField, PutFields, Valid, Canonical;
    ordered, payload := [], [];
    NoFields();
    for k := 0 to |names|
      invariant |ordered| == k && payload == PutFields(ordered)
      invariant forall i :: 0 <= i < k ==> Valid(fields[names[i]]) && ordered[i] == Field(names[i], Canonical(fields[names[i]]))
    {
      assert names[k] in names;
      var value := fields[names[k]];
      if !Valid(value) {
        return false, payload, ordered;
      }
      var f := Field(names[k], Canonical(value));
      FieldsAppend(ordered, f);
      payload := payload + PutField(f);
      ordered := ordered + [f];
    }
    ok := true;
  }

  lemma NoFields()
    ensures PutFields([]) == []
  {
  }

  /** Encode a field map: names in order, values in canonical form, and no more than the limits allow. */
  method MarshalDocument(fields: map<Bytes, Value>, crc: Checksum) returns (r: Result<Bytes, CodecError>, ghost ordered: seq<Field>)
    ensures !MapOK(fields) ==> r == Err(InvalidField)
    ensures MapOK(fields) ==> FieldsOK(ordered) && FieldMap(ordered) == CanonicalMap(fields) && r == Marshal(ordered, crc)
    ensures r.Ok? ==> Unmarshal(r.value, crc).Ok? && FieldMap(Unmarshal(r.value, crc).value) == CanonicalMap(fields)
  {
    hide Before, PutFields, FieldMap, CanonicalMap, FieldsOK, HeaderFront, Unmarshal, Put, Valid, Canonical, ValidName;
    ordered := [];
    if |fields| > MAX_FIELDS || exists name :: name in fields.Keys && !ValidName(name) {
      return Err(InvalidField), ordered;
    }
    var names := SortNames(fields.Keys);
    var ok, payload;
    ok, payload, ordered := EncodeFields(fields, names);
    if !ok {
      return Err(InvalidField), ordered;
    }
    OrderedMap(fields, names, ordered);
    if |payload| > MAX_PAYLOAD {
      return Err(TooLarge), ordered;
    }
    var front := HeaderFront(|names|, payload, crc);
    r := Ok(front + Put(Sum(crc, front), 4) + payload);
    DocumentRoundTrip(ordered, crc);
  }

  function Prefixed(fields: seq<Field>, r: Result<seq<Field>, CodecError>): Result<seq<Field>, CodecError> {
    match r
    case Err(e) => Err(e)
    case Ok(rest) => Ok(fields + rest)
  }

  lemma HeaderParts(s: Bytes, header: Bytes)
    requires |s| >= 16 && header == s[..16]
    ensures header[..2] == s[..2] && header[2..4] == s[2..4] && header[4..8] == s[4..8] && header[8..16] == s[8..16]
  {
  }

  /** One field at an offset: where it ends, or that it is corrupt. */
  method UnmarshalField(payload: Bytes, offset: nat, first: bool, previous: Bytes) returns (ok: bool, f: Field, end: nat)
    requires offset <= |payload|
    ensures offset <= end <= |payload|
    ensures NextField(payload[offset..], first, previous) == if ok then Next(f, end - offset) else NoField
  {
    hide Get, DecodeValue, ValidName, Before;
    ok, f, end := false, Field([], Null), offset;
    ghost var s := payload[offset..];
    if |payload| - offset < FIELD_HEADER_SIZE {
      return;
    }
    var header := payload[offset..offset + FIELD_HEADER_SIZE];
    HeaderParts(s, header);
    var nameLength, code := Get(header[..2]), Get(header[2..4]);
    var count, dataLength := Get(header[4..8]), Get(header[8..16]);
    var at := offset + FIELD_HEADER_SIZE;
    if nameLength == 0 || nameLength > |payload| - at || dataLength > |payload| - at - nameLength {
      return;
    }
    var name := payload[at..at + nameLength];
    at := at + nameLength;
    assert name == s[16..16 + nameLength];
    if !ValidName(name) || (!first && !Before(previous, name)) {
      return;
    }
    var data := payload[at..at + dataLength];
    at := at + dataLength;
    assert data == s[16 + nameLength..16 + nameLength + dataLength] && payload[at..] == s[16 + nameLength + dataLength..];
    var value := DecodeValue(Encoded(code, count, data));
    if value.Err? {
      return;
    }
    ok, f, end := true, Field(name, value.value), at;
  }

  /** Read a payload's fields at moving offsets; trailing bytes are an error. */
  method UnmarshalFields(payload: Bytes, count: nat) returns (r: Result<seq<Field>, CodecError>)
    ensures r == GetFields(count, payload, true, [])
  {
    hide GetFields, Prefixed, NextField;
    ghost var all := GetFields(count, payload, true, []);
    var fields: seq<Field> := [];
    var offset, left, first := 0, count, true;
    var previous: Bytes := [];
    assert payload[0..] == payload;
    PrefixLaws(all);
    while left > 0
      invariant offset <= |payload|
      invariant all == Prefixed(fields, GetFields(left, payload[offset..], first, previous))
      decreases left
    {
      var ok, f, end := UnmarshalField(payload, offset, first, previous);
      ghost var rest := GetFields(left - 1, payload[end..], false, f.name);
      if ok {
        assert payload[offset..][end - offset..] == payload[end..];
      }
      FieldsStep(left, payload[offset..], first, previous);
      if !ok {
        PrefixOfError(fields);
        return Err(Corrupt);
      }
      PrefixTwice(fields, f, rest);
      fields := fields + [f];
      offset, previous, left, first := end, f.name, left - 1, false;
    }
    LastFields(payload[offset..], first, previous, fields);
    r := if offset != |payload| then Err(Corrupt) else Ok(fields);
  }

  lemma FieldsStep(count: nat, payload: Bytes, first: bool, previous: Bytes)
    requires count > 0
    ensures var next := NextField(payload, first, previous);
      GetFields(count, payload, first, previous) ==
        if next.NoField? then Err(Corrupt)
        else Prefixed([next.field], GetFields(count - 1, payload[next.end..], false, next.field.name))
  {
    hide NextField;
  }

  lemma PrefixOfError(fields: seq<Field>)
    ensures Prefixed(fields, Err(Corrupt)) == Err(Corrupt)
  {
  }

  lemma LastFields(rest: Bytes, first: bool, previous: Bytes, fields: seq<Field>)
    ensures Prefixed(fields, GetFields(0, rest, first, previous)) == if rest == [] then Ok(fields) else Err(Corrupt)
  {
    assert fields + [] == fields;
  }

  lemma PrefixLaws(r: Result<seq<Field>, CodecError>)
    ensures Prefixed([], r) == r
  {
    if r.Ok? {
      assert [] + r.value == r.value;
    }
  }

  lemma PrefixTwice(fields: seq<Field>, f: Field, r: Result<seq<Field>, CodecError>)
    ensures Prefixed(fields, Prefixed([f], r)) == Prefixed(fields + [f], r)
  {
    if r.Ok? {
      assert fields + ([f] + r.value) == (fields + [f]) + r.value;
    }
  }

  method UnmarshalDocument(s: Bytes, crc: Checksum) returns (r: Result<map<Bytes, Value>, CodecError>)
    ensures r == match Unmarshal(s, crc) case Err(e) => Err(e) case Ok(fields) => Ok(FieldMap(fields))
  {
    hide Get, GetFields;
    if |s| < HEADER_SIZE || s[..8] != MAGIC || Get(s[8..10]) != VERSION || Get(s[10..12]) != HEADER_SIZE {
      return Err(Corrupt);
    }
    if Sum(crc, s[..28]) != Get(s[28..32]) {
      return Err(Corrupt);
    }
    var count, length := Get(s[12..16]), Get(s[16..24]);
    if count > MAX_FIELDS || length > MAX_PAYLOAD || length != |s| - HEADER_SIZE {
      return Err(Corrupt);
    }
    var payload := s[HEADER_SIZE..];
    if Sum(crc, payload) != Get(s[24..28]) {
      return Err(Corrupt);
    }
    var fields := UnmarshalFields(payload, count);
    r := if fields.Err? then Err(fields.error) else Ok(FieldMap(fields.value));
  }
}
