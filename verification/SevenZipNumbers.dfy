/** The numbers of 7z headers: the leading one bits of the first byte tell how many bytes follow. */
module SevenZipNumbers {
  import opened Options
  import opened Bits
  import opened LowBits

  /** A parsed value, and the position after it. */
  datatype At<T> = At(value: T, next: nat)

  datatype Status = Ok | ErrorArchive | ErrorUnsupported

  /** How many bytes follow the first byte `b`: its leading one bits. */
  function Ones(b: Byte): (n: nat)
    ensures n <= 8
  {
    if b < 0x80 then 0 else if b < 0xC0 then 1 else if b < 0xE0 then 2 else if b < 0xF0 then 3
    else if b < 0xF8 then 4 else if b < 0xFC then 5 else if b < 0xFE then 6 else if b < 0xFF then 7 else 8
  }

  function LittleEndian(bytes: seq<Byte>): nat {
    if bytes == [] then 0 else bytes[0] + 256 * LittleEndian(bytes[1..])
  }

  /** The bytes that follow are the low part of the number, the rest of the first byte is its high part. */
  function Number(data: seq<Byte>, at: nat): (r: Option<At<nat>>)
    ensures r.Some? ==> at < r.value.next <= |data|
  {
    if at >= |data| then None
    else
      var n := Ones(data[at]);
      if at + 1 + n > |data| then None
      else
        var high := if n >= 7 then 0 else data[at] % Pow2(7 - n);
        Some(At(high * Pow2(8 * n) + LittleEndian(data[at + 1..at + 1 + n]), at + 1 + n))
  }

  const LIMIT32: nat := 0x7FFF_FFFF

  /** A number that fits into 31 bits, but is not the largest of them. */
  function Number32(data: seq<Byte>, at: nat): (r: Option<At<nat>>)
    ensures r.Some? ==> at < r.value.next <= |data| && r.value.value < LIMIT32
  {
    match Number(data, at)
    case None => None
    case Some(v) => if v.value < LIMIT32 then Some(v) else None
  }

  /** The position after `n` numbers. */
  function AfterNumbers(data: seq<Byte>, at: nat, n: nat): (r: Option<nat>)
    ensures r.Some? ==> at <= r.value
    decreases n
  {
    if n == 0 then Some(at)
    else
      match Number(data, at)
      case None => None
      case Some(v) => AfterNumbers(data, v.next, n - 1)
  }

  lemma {:induction false} LittleAppend(bytes: seq<Byte>, b: Byte)
    ensures LittleEndian(bytes + [b]) == LittleEndian(bytes) + b * Pow2(8 * |bytes|)
    decreases |bytes|
  {
    if bytes == [] {
      assert [b][1..] == [];
      assert bytes + [b] == [b];
      assert b * Pow2(0) == b;
    } else {
      assert (bytes + [b])[1..] == bytes[1..] + [b];
      LittleAppend(bytes[1..], b);
      Pow2Eight();
      Pow2Add(8, 8 * (|bytes| - 1));
      var p := Pow2(8 * (|bytes| - 1));
      assert 256 * (b * p) == b * (256 * p);
    }
  }

  /** A number depends on its own bytes only. */
  lemma NumberIsLocal(data: seq<Byte>, a: nat, b: nat, at: nat)
    requires a <= at && b <= |data| && a <= b
    requires Number(data, at).Some? && Number(data, at).value.next <= b
    ensures var r := Number(data[a..b], at - a);
            r == Some(At(Number(data, at).value.value, Number(data, at).value.next - a))
  {
    hide LittleEndian, Pow2;
    var n := Ones(data[at]);
    assert data[a..b][at - a] == data[at];
    SliceOfSlice(data, a, b, at - a + 1, at - a + 1 + n);
  }

  lemma SliceOfSlice(data: seq<Byte>, a: nat, b: nat, x: nat, y: nat)
    requires a <= b <= |data| && x <= y && a + y <= b
    ensures data[a..b][x..y] == data[a + x..a + y]
  {
    var l, r := data[a..b][x..y], data[a + x..a + y];
    forall i | 0 <= i < y - x ensures l[i] == r[i] {
      assert l[i] == data[a..b][x + i] == data[a + (x + i)];
    }
  }

  lemma SliceMore(data: seq<Byte>, a: nat, b: nat)
    requires a <= b < |data|
    ensures data[a..b + 1] == data[a..b] + [data[b]]
  {
  }

  lemma Number32IsLocal(data: seq<Byte>, a: nat, b: nat, at: nat)
    requires a <= at && b <= |data| && a <= b
    requires Number32(data, at).Some? && Number32(data, at).value.next <= b
    ensures Number32(data[a..b], at - a) == Some(At(Number32(data, at).value.value, Number32(data, at).value.next - a))
  {
    hide Number;
    NumberIsLocal(data, a, b, at);
  }

  /** Where the bytes are read from. */
  class SzData {
    var data: seq<Byte>
    var at: nat

    ghost predicate Valid()
      reads this
    {
      at <= |data|
    }

    constructor (bytes: seq<Byte>)
      ensures Valid() && data == bytes && at == 0
    {
      data, at := bytes, 0;
    }

    /** Reads a number; on success it is the one at the position, and the position moves behind it. */
    method ReadNumber() returns (res: Status, value: nat)
      requires Valid()
      modifies this`at
      ensures Valid() && (res == Ok <==> Number(data, old(at)).Some?)
      ensures res == Ok ==> Number(data, old(at)) == Some(At(value, at))
    {
      hide LittleEndian, Pow2;
      value := 0;
      if at == |data| {
        return ErrorArchive, 0;
      }
      ghost var start := at;
      var first := data[at];
      at := at + 1;
      if first < 0x80 {
        ShortNumber(data, start);
        return Ok, first;
      }
      if at == |data| {
        return ErrorArchive, 0;
      }
      var v := data[at];
      at := at + 1;
      if first / 0x40 % 2 == 0 {
        TwoByteNumber(data, start);
        var high: nat := first % 0x40;
        return Ok, high * 0x100 + v;
      }
      if at == |data| {
        return ErrorArchive, 0;
      }
      var next: nat := data[at];
      value := v + next * 0x100;
      at := at + 1;
      TwoBytes(data, start);
      res, value := ReadTail(first, value, start);
    }

    /** The third byte and those after it. */
    method ReadTail(first: Byte, low: nat, ghost start: nat) returns (res: Status, value: nat)
      requires Valid() && start + 3 == at && first == data[start] && first >= 0xC0
      requires low == LittleEndian(data[start + 1..at])
      modifies this`at
      ensures Valid() && (res == Ok <==> Number(data, start).Some?)
      ensures res == Ok ==> Number(data, start) == Some(At(value, at))
    {
      hide LittleEndian, Pow2;
      value := low;
      var mask, i := 0x20, 2;
      while i < 8
        invariant 2 <= i <= 8 && at == start + 1 + i <= |data| && Ones(first) >= i
        invariant mask == (if i == 2 then 0x20 else if i == 3 then 0x10 else if i == 4 then 8
                           else if i == 5 then 4 else if i == 6 then 2 else if i == 7 then 1 else 0)
        invariant value == LittleEndian(data[start + 1..at])
      {
        OnesByMask(first, i, mask);
        MaskPower(i, mask);
        if first / mask % 2 == 0 {
          return Ok, value + first % mask * Pow2(8 * i);
        }
        if at == |data| {
          return ErrorArchive, 0;
        }
        SliceMore(data, start + 1, at);
        LittleAppend(data[start + 1..at], data[at]);
        value := value + data[at] * Pow2(8 * i);
        at := at + 1;
        mask := mask / 2;
        i := i + 1;
      }
      return Ok, value;
    }

    /** Reads a number that must fit into 31 bits. */
    method ReadNumber32() returns (res: Status, value: nat)
      requires Valid()
      modifies this`at
      ensures Valid() && (res == Ok <==> Number32(data, old(at)).Some?)
      ensures res == Ok ==> Number32(data, old(at)) == Some(At(value, at))
    {
      hide Number;
      if at == |data| {
        NoNumber(data, at);
        return ErrorArchive, 0;
      }
      var first := data[at];
      if first < 0x80 {
        ShortNumber(data, at);
        at := at + 1;
        return Ok, first;
      }
      res, value := ReadNumber();
      if res == Ok && value >= 0x8000_0000 - 1 {
        res := ErrorUnsupported;
      }
    }

    /** The leading one bits of a byte that has at least two. */
    static method CountOnes(first: Byte) returns (i: nat)
      requires first >= 0xC0
      ensures i == Ones(first)
    {
      var mask: nat := 0x20;
      i := 2;
      while i < 8 && first / mask % 2 != 0
        invariant 2 <= i <= 8 && Ones(first) >= i && (i < 8 ==> mask > 0)
        invariant mask == (if i == 2 then 0x20 else if i == 3 then 0x10 else if i == 4 then 8
                           else if i == 5 then 4 else if i == 6 then 2 else if i == 7 then 1 else 0)
        decreases 8 - i
      {
        OnesByMask(first, i, mask);
        mask := mask / 2;
        i := i + 1;
      }
      if i < 8 {
        OnesByMask(first, i, mask);
      }
    }

    /** Skips numbers; the position moves only on success. */
    method SkipNumbers(count: nat) returns (res: Status)
      requires Valid()
      modifies this`at
      ensures Valid() && (res == Ok <==> AfterNumbers(data, old(at), count).Some?)
      ensures at == if res == Ok then AfterNumbers(data, old(at), count).value else old(at)
    {
      hide Number;
      var sd: nat := at;
      var num: nat := count;
      while num != 0
        invariant at == old(at) <= sd <= |data| && num <= count
        invariant AfterNumbers(data, at, count) == AfterNumbers(data, sd, num)
        decreases num
      {
        if sd == |data| {
          NoNumber(data, sd);
          return ErrorArchive;
        }
        var first := data[sd];
        NextNumber(data, sd);
        sd := sd + 1;
        if first < 0x80 {
        } else if first / 0x40 % 2 == 0 {
          if sd == |data| {
            return ErrorArchive;
          }
          sd := sd + 1;
        } else {
          var i := CountOnes(first);
          if i > |data| - sd {
            return ErrorArchive;
          }
          sd := sd + i;
        }
        num := num - 1;
      }
      at := sd;
      return Ok;
    }
  }

  lemma NoNumber(data: seq<Byte>, at: nat)
    requires at >= |data|
    ensures Number(data, at) == None
  {
  }

  lemma ShortNumber(data: seq<Byte>, at: nat)
    requires at < |data| && data[at] < 0x80
    ensures Number(data, at) == Some(At(data[at], at + 1))
  {
    assert Pow2(0) == 1;
    Pow2Eight();
    Pow2Next(7);
    assert data[at + 1..at + 1] == [];
  }

  lemma TwoByteNumber(data: seq<Byte>, at: nat)
    requires at + 1 < |data| && 0x80 <= data[at] < 0xC0
    ensures var high: nat := data[at] % 0x40;
            Number(data, at) == Some(At(high * 0x100 + data[at + 1], at + 2))
  {
    Pow2Eight();
    Pow2Next(7);
    Pow2Next(6);
    var s := data[at + 1..at + 2];
    assert s == [data[at + 1]] && s[1..] == [];
    assert LittleEndian(s) == data[at + 1];
  }

  lemma TwoBytes(data: seq<Byte>, at: nat)
    requires at + 3 <= |data|
    ensures var high: nat := data[at + 2];
            LittleEndian(data[at + 1..at + 3]) == data[at + 1] + high * 0x100
  {
    var s := data[at + 1..at + 3];
    assert s[1..] == [data[at + 2]] && s[1..][1..] == [];
    assert LittleEndian(s[1..]) == data[at + 2];
  }

  lemma OnesByMask(first: Byte, i: nat, mask: nat)
    requires 2 <= i < 8 && Ones(first) >= i
    requires mask == (if i == 2 then 0x20 else if i == 3 then 0x10 else if i == 4 then 8
                      else if i == 5 then 4 else if i == 6 then 2 else 1)
    ensures first / mask % 2 == 0 <==> Ones(first) == i
  {
  }

  lemma MaskPower(i: nat, mask: nat)
    requires 2 <= i < 8
    requires mask == (if i == 2 then 0x20 else if i == 3 then 0x10 else if i == 4 then 8
                      else if i == 5 then 4 else if i == 6 then 2 else 1)
    ensures mask == Pow2(7 - i)
  {
    assert Pow2(5) == 32;
  }

  lemma NextNumber(data: seq<Byte>, at: nat)
    requires at < |data|
    ensures Number(data, at).Some? <==> at + 1 + Ones(data[at]) <= |data|
    ensures Number(data, at).Some? ==> Number(data, at).value.next == at + 1 + Ones(data[at])
  {
  }
}
