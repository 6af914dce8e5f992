/** How the numbers and the folders of 7z headers are written: reading gives back what was written. */
module SevenZipWriter {
  import opened Options
  import opened Modular
  import opened Bits
  import opened LowBits
  import opened SevenZipNumbers
  import opened SevenZipFolders

  // ---------------------------------------------------------------- numbers

  /** How many values the first byte has left when it says that `n` bytes follow. */
  function Room(n: nat): (r: nat)
    requires n <= 8
    ensures 1 <= r <= 128
  {
    if n == 8 then 1 else SevenBits(n); Pow2(7 - n)
  }

  lemma SevenBits(n: nat)
    requires n <= 7
    ensures Pow2(7 - n) <= 128 && Pow2(8 - n) == 2 * Pow2(7 - n)
  {
    Pow2Eight();
    Pow2Next(7);
    Pow2Grows(7 - n, 7);
    Pow2Next(7 - n);
  }

  /** The numbers below this have a form of `n` bytes after the first one. */
  function Capacity(n: nat): nat
    requires n <= 8
  {
    if n == 8 then Pow2(64) else Pow2(7 * n + 7)
  }

  lemma CapacityIs(n: nat)
    requires n <= 8
    ensures Capacity(n) == Room(n) * Pow2(8 * n)
  {
    if n < 8 {
      Pow2Add(7 - n, 8 * n);
      assert 7 - n + 8 * n == 7 * n + 7;
    }
  }

  /** The first byte: `n` one bits, then a zero bit if there is room for it, then the value `high`. */
  function FirstByte(n: nat, high: nat): Byte
    requires n <= 8 && high < Room(n)
  {
    if n == 8 then 0xFF else 0x100 - 2 * Room(n) + high
  }

  lemma FirstByteOnes(n: nat, high: nat)
    requires n <= 8 && high < Room(n)
    ensures Ones(FirstByte(n, high)) == n && (n < 7 ==> FirstByte(n, high) % Pow2(7 - n) == high)
  {
    assert Pow2(7) == 128 && Pow2(6) == 64 && Pow2(5) == 32 && Pow2(4) == 16 && Pow2(3) == 8 && Pow2(2) == 4;
  }

  function LittleBytes(v: nat, n: nat): (r: seq<Byte>)
    ensures |r| == n
    decreases n
  {
    if n == 0 then [] else [v % 256] + LittleBytes(v / 256, n - 1)
  }

  /** What is left of a number above its low `n` bytes. */
  function Above(v: nat, n: nat): nat
    decreases n
  {
    if n == 0 then v else Above(v / 256, n - 1)
  }

  lemma {:induction false} LittleEndianOfBytes(v: nat, n: nat)
    ensures LittleEndian(LittleBytes(v, n)) + Above(v, n) * Pow2(8 * n) == v
    decreases n
  {
    if n == 0 {
      assert v * Pow2(0) == v;
    } else {
      LittleEndianOfBytes(v / 256, n - 1);
      Pow2Eight();
      Pow2Add(8, 8 * (n - 1));
      assert LittleBytes(v, n)[1..] == LittleBytes(v / 256, n - 1);
      Distribute(LittleEndian(LittleBytes(v / 256, n - 1)), Above(v, n), Pow2(8 * (n - 1)));
    }
  }

  lemma Distribute(x: nat, a: nat, p: nat)
    ensures 256 * (x + a * p) == 256 * x + a * (256 * p)
  {
  }

  lemma {:induction false} BytesOfLittleEndian(bytes: seq<Byte>, high: nat)
    ensures var v := LittleEndian(bytes) + high * Pow2(8 * |bytes|);
            LittleBytes(v, |bytes|) == bytes && Above(v, |bytes|) == high
    decreases |bytes|
  {
    if bytes == [] {
      assert high * Pow2(0) == high;
    } else {
      hide Pow2, LittleEndian, LittleBytes, Above;
      var n := |bytes| - 1;
      BytesOfLittleEndian(bytes[1..], high);
      Pow2Eight();
      Pow2Add(8, 8 * n);
      TakeByte(bytes[0], LittleEndian(bytes[1..]), high, Pow2(8 * n));
      LowByte(bytes, LittleEndian(bytes) + high * Pow2(8 * |bytes|), |bytes|);
      assert bytes == [bytes[0]] + bytes[1..];
    }
  }

  lemma LowByte(bytes: seq<Byte>, v: nat, n: nat)
    requires n > 0 && bytes != []
    ensures LittleEndian(bytes) == bytes[0] + 256 * LittleEndian(bytes[1..])
    ensures LittleBytes(v, n) == [v % 256] + LittleBytes(v / 256, n - 1) && Above(v, n) == Above(v / 256, n - 1)
  {
  }

  lemma TakeByte(b: Byte, x: nat, high: nat, p: nat)
    ensures var v := b + 256 * x + high * (256 * p); v % 256 == b && v / 256 == x + high * p
  {
    Distribute(x, high, p);
    Remainder(b + 256 * x + high * (256 * p), 256, x + high * p, b);
  }

  lemma AboveFits(v: nat, n: nat)
    requires n <= 8 && v < Capacity(n)
    ensures Above(v, n) < Room(n)
  {
    hide Above, LittleEndian, LittleBytes, Pow2;
    LittleEndianOfBytes(v, n);
    CapacityIs(n);
    LessFactor(Above(v, n), Room(n), Pow2(8 * n));
  }

  /** The form with `n` following bytes: they hold the low part, lowest byte first, and the first byte the rest. */
  function NumberForm(v: nat, n: nat): (r: seq<Byte>)
    requires n <= 8 && v < Capacity(n)
    ensures |r| == n + 1
  {
    AboveFits(v, n);
    [FirstByte(n, Above(v, n))] + LittleBytes(v, n)
  }

  /** The least number of following bytes from `n` on that is enough. */
  function Fewest(v: nat, n: nat): (r: nat)
    requires n <= 8 && v < Pow2(64)
    ensures n <= r <= 8 && v < Capacity(r)
    decreases 8 - n
  {
    if n == 8 || v < Capacity(n) then n else Fewest(v, n + 1)
  }

  /** A number in its shortest form. */
  function Written(v: nat): (r: seq<Byte>)
    requires v < Pow2(64)
    ensures |r| > 0
  {
    NumberForm(v, Fewest(v, 0))
  }

  // ---------------------------------------------------------------- reading numbers back

  /** The bytes `w` stand at the position. */
  predicate Stands(data: seq<Byte>, at: nat, w: seq<Byte>) {
    at + |w| <= |data| && data[at..at + |w|] == w
  }

  /** Every form of a number is read as the number, whatever follows it. */
  lemma FormIsRead(data: seq<Byte>, at: nat, v: nat, n: nat)
    requires n <= 8 && v < Capacity(n) && Stands(data, at, NumberForm(v, n))
    ensures Number(data, at) == Some(At(v, at + 1 + n))
  {
    hide Above, LittleEndian, LittleBytes, Pow2, Ones, FirstByte;
    AboveFits(v, n);
    FirstByteOnes(n, Above(v, n));
    LittleEndianOfBytes(v, n);
    assert data[at..at + 1 + n][0] == data[at] && data[at..at + 1 + n][1..] == data[at + 1..at + 1 + n];
    if n >= 7 {
      NoRoom(n);
    }
  }

  lemma NoRoom(n: nat)
    requires 7 <= n <= 8
    ensures Room(n) == 1
  {
  }

  /** Whatever is read as a number is the form of it that its first byte announces. */
  lemma NumberIsForm(data: seq<Byte>, at: nat)
    requires Number(data, at).Some?
    ensures var v, n := Number(data, at).value.value, Ones(data[at]);
            v < Capacity(n) && Number(data, at).value.next == at + 1 + n && Stands(data, at, NumberForm(v, n))
  {
    hide Above, LittleEndian, LittleBytes, Pow2, Ones, FirstByte;
    var b, n := data[at], Ones(data[at]);
    var low, v := data[at + 1..at + 1 + n], Number(data, at).value.value;
    var high := if n >= 7 then 0 else b % Pow2(7 - n);
    ByteParts(b);
    BytesOfLittleEndian(low, high);
    LittleBound(low);
    CapacityIs(n);
    Factor(high + 1, Room(n), Pow2(8 * n));
    assert (high + 1) * Pow2(8 * n) == high * Pow2(8 * n) + Pow2(8 * n);
    assert data[at..at + 1 + n] == [b] + low;
  }

  lemma ByteParts(b: Byte)
    ensures var n := Ones(b);
            var high := if n >= 7 then 0 else b % Pow2(7 - n);
            high < Room(n) && b == FirstByte(n, high)
  {
    assert Pow2(7) == 128 && Pow2(6) == 64 && Pow2(5) == 32 && Pow2(4) == 16 && Pow2(3) == 8 && Pow2(2) == 4;
  }

  lemma {:induction false} LittleBound(bytes: seq<Byte>)
    ensures LittleEndian(bytes) < Pow2(8 * |bytes|)
    decreases |bytes|
  {
    if bytes != [] {
      LittleBound(bytes[1..]);
      Pow2Eight();
      Pow2Add(8, 8 * (|bytes| - 1));
    }
  }

  /** A number below 2^64 is read back from its shortest form. */
  lemma WrittenIsRead(data: seq<Byte>, at: nat, v: nat)
    requires v < Pow2(64) && Stands(data, at, Written(v))
    ensures Number(data, at) == Some(At(v, at + |Written(v)|))
  {
    hide Capacity, NumberForm, Number;
    FormIsRead(data, at, v, Fewest(v, 0));
  }

  lemma LimitFits()
    ensures LIMIT32 < Pow2(64)
  {
    Pow2Eight();
    Pow2Add(8, 8);
    Pow2Add(16, 16);
    hide Pow2;
    Pow2Grows(32, 64);
  }

  /** A number that is small enough for the decoder, in its shortest form. */
  function Small(v: nat): (r: seq<Byte>)
    requires v < LIMIT32
    ensures |r| > 0
  {
    LimitFits();
    Written(v)
  }

  lemma SmallIsRead(data: seq<Byte>, at: nat, v: nat)
    requires v < LIMIT32 && Stands(data, at, Small(v))
    ensures Number32(data, at) == Some(At(v, at + |Small(v)|))
  {
    hide Number, Written;
    LimitFits();
    WrittenIsRead(data, at, v);
  }

  lemma StandsParts(data: seq<Byte>, at: nat, a: seq<Byte>, b: seq<Byte>)
    ensures Stands(data, at, a + b) <==> Stands(data, at, a) && Stands(data, at + |a|, b)
  {
    if at + |a| + |b| <= |data| {
      assert data[at..at + |a + b|] == data[at..at + |a|] + data[at + |a|..at + |a| + |b|];
      assert data[at..at + |a + b|][..|a|] == data[at..at + |a|] && (a + b)[..|a|] == a;
      assert data[at..at + |a + b|][|a|..] == data[at + |a|..at + |a| + |b|] && (a + b)[|a|..] == b;
    }
  }

  // ---------------------------------------------------------------- coders

  /** A coder: its id as a number of so many bytes, the number of its input streams unless it is the usual one, and its
      properties if it has any. */
  datatype CoderInfo = CoderInfo(id: nat, idSize: nat, streams: Option<nat>, props: Option<seq<Byte>>)

  predicate CoderOk(c: CoderInfo) {
    && c.idSize <= 8 && c.id < Pow2(8 * c.idSize)
    && (c.streams.Some? ==> c.streams.value < LIMIT32) && (c.props.Some? ==> |c.props.value| < LIMIT32)
  }

  /** The number of bytes of the id, and what else there is to read. */
  function Flags(c: CoderInfo): Byte
    requires CoderOk(c)
  {
    c.idSize + (if c.streams.Some? then 0x10 else 0) + if c.props.Some? then 0x20 else 0
  }

  function StreamBytes(c: CoderInfo): seq<Byte>
    requires CoderOk(c)
  {
    if c.streams.Some? then Small(c.streams.value) + Small(1) else []
  }

  function PropBytes(c: CoderInfo): seq<Byte>
    requires CoderOk(c)
  {
    if c.props.Some? then Small(|c.props.value|) + c.props.value else []
  }

  function CoderBytes(c: CoderInfo): (r: seq<Byte>)
    requires CoderOk(c)
    ensures |r| > 0
  {
    [Flags(c)] + (BigBytes(c.id, c.idSize) + (StreamBytes(c) + PropBytes(c)))
  }

  /** What is read of a coder that stands `at` bytes after the start of its folder. */
  function CoderRead(c: CoderInfo, at: nat): Coder
    requires CoderOk(c)
  {
    Coder(c.id, if c.streams.Some? then c.streams.value else 1,
          if c.props.Some? then at + |CoderBytes(c)| - |c.props.value| else 0,
          if c.props.Some? then |c.props.value| else 0)
  }

  lemma {:induction false} BigEndianOfBytes(v: nat, n: nat)
    requires v < Pow2(8 * n)
    ensures BigEndian(BigBytes(v, n)) == v
    decreases n
  {
    if n > 0 {
      Pow2Eight();
      Pow2Add(8 * (n - 1), 8);
      QuotientBound(v, Pow2(8 * (n - 1)), 256);
      BigEndianOfBytes(v / 256, n - 1);
      assert BigBytes(v, n)[..n - 1] == BigBytes(v / 256, n - 1);
    }
  }

  lemma FlagBits(c: CoderInfo)
    requires CoderOk(c)
    ensures var f := Flags(c);
            f < 0x40 && f % 0x10 == c.idSize
            && (f / 0x10 % 2 != 0 <==> c.streams.Some?) && (f / 0x20 % 2 != 0 <==> c.props.Some?)
  {
    hide Pow2;
    if c.streams.Some? {
      if c.props.Some? {
      }
    }
  }

  lemma StreamsAreRead(data: seq<Byte>, at: nat, c: CoderInfo)
    requires CoderOk(c) && at <= |data| && Stands(data, at, StreamBytes(c))
    ensures Streams(data, at, Flags(c)) == Some(At(if c.streams.Some? then c.streams.value else 1, at + |StreamBytes(c)|))
  {
    hide Small, Number32, Flags;
    FlagBits(c);
    if c.streams.Some? {
      StandsParts(data, at, Small(c.streams.value), Small(1));
      SmallIsRead(data, at, c.streams.value);
      SmallIsRead(data, at + |Small(c.streams.value)|, 1);
    }
  }

  lemma PropsAreRead(data: seq<Byte>, at: nat, start: nat, c: CoderInfo)
    requires CoderOk(c) && start <= at <= |data| && Stands(data, at, PropBytes(c))
    ensures var n := at + |PropBytes(c)|;
            Props(data, at, start, Flags(c)) ==
              if c.props.Some? then Some(At((n - |c.props.value| - start, |c.props.value|), n)) else Some(At((0, 0), n))
  {
    hide Small, Number32, Flags;
    FlagBits(c);
    if c.props.Some? {
      StandsParts(data, at, Small(|c.props.value|), c.props.value);
      SmallIsRead(data, at, |c.props.value|);
    }
  }

  lemma CoderIsRead(data: seq<Byte>, at: nat, start: nat, c: CoderInfo)
    requires CoderOk(c) && start <= at && Stands(data, at, CoderBytes(c))
    ensures OneCoder(data, at, start) == Some(At(CoderRead(c, at - start), at + |CoderBytes(c)|))
  {
    hide StreamBytes, PropBytes, Streams, Props, BigEndian, BigBytes, Flags;
    var id, tail := BigBytes(c.id, c.idSize), StreamBytes(c) + PropBytes(c);
    StandsParts(data, at, [Flags(c)], id + tail);
    StandsParts(data, at + 1, id, tail);
    StandsParts(data, at + 1 + c.idSize, StreamBytes(c), PropBytes(c));
    assert data[at..at + 1] == [data[at]];
    FlagBits(c);
    BigEndianOfBytes(c.id, c.idSize);
    StreamsAreRead(data, at + 1 + c.idSize, c);
    PropsAreRead(data, at + 1 + c.idSize + |StreamBytes(c)|, start, c);
    PropLength(c);
  }

  lemma PropLength(c: CoderInfo)
    requires CoderOk(c)
    ensures c.props.Some? ==> |PropBytes(c)| >= |c.props.value|
    ensures c.props == None ==> PropBytes(c) == []
  {
  }

  // ---------------------------------------------------------------- folders

  /** A folder: its coders, which input stream is bound to the output of which coder, the input streams that are packed,
      and the coder whose output is bound to nothing. */
  datatype FolderInfo = FolderInfo(coders: seq<CoderInfo>, bonds: seq<Bond>, packs: seq<nat>, main: nat)

  function CodersBytes(cs: seq<CoderInfo>): seq<Byte>
    requires forall i :: 0 <= i < |cs| ==> CoderOk(cs[i])
  {
    if cs == [] then [] else CoderBytes(cs[0]) + CodersBytes(cs[1..])
  }

  /** What is read of coders that stand `at` bytes after the start of their folder. */
  function CodersRead(cs: seq<CoderInfo>, at: nat): (r: seq<Coder>)
    requires forall i :: 0 <= i < |cs| ==> CoderOk(cs[i])
    ensures |r| == |cs|
  {
    if cs == [] then [] else [CoderRead(cs[0], at)] + CodersRead(cs[1..], at + |CoderBytes(cs[0])|)
  }

  function StreamCount(cs: seq<CoderInfo>): nat {
    if cs == [] then 0 else (if cs[0].streams.Some? then cs[0].streams.value else 1) + StreamCount(cs[1..])
  }

  /** The input stream comes first. */
  function BondBytes(bonds: seq<Bond>): seq<Byte>
    requires forall i :: 0 <= i < |bonds| ==> bonds[i].inIndex < LIMIT32 && bonds[i].outIndex < LIMIT32
  {
    if bonds == [] then [] else Small(bonds[0].inIndex) + (Small(bonds[0].outIndex) + BondBytes(bonds[1..]))
  }

  function PackBytes(packs: seq<nat>): seq<Byte>
    requires forall i :: 0 <= i < |packs| ==> packs[i] < LIMIT32
  {
    if packs == [] then [] else Small(packs[0]) + PackBytes(packs[1..])
  }

  predicate BondsDiffer(bonds: seq<Bond>) {
    forall i, j :: 0 <= i < j < |bonds| ==> bonds[i].inIndex != bonds[j].inIndex && bonds[i].outIndex != bonds[j].outIndex
  }

  predicate PacksDiffer(packs: seq<nat>, bonds: seq<Bond>) {
    && (forall i, j :: 0 <= i < j < |packs| ==> packs[i] != packs[j])
    && (forall i, j :: 0 <= i < |packs| && 0 <= j < |bonds| ==> packs[i] != bonds[j].inIndex)
  }

  /** All coders but the main one are bound, no stream is used twice, and the streams that are not bound are packed. */
  predicate FolderOk(f: FolderInfo) {
    && 1 <= |f.coders| < LIMIT32 && (forall i :: 0 <= i < |f.coders| ==> CoderOk(f.coders[i]))
    && |f.bonds| == |f.coders| - 1 && |f.bonds| + |f.packs| == StreamCount(f.coders) && f.main < |f.coders|
    && (forall i :: 0 <= i < |f.bonds| ==>
          f.bonds[i].inIndex < StreamCount(f.coders) && f.bonds[i].inIndex < LIMIT32
          && f.bonds[i].outIndex < |f.coders| && f.bonds[i].outIndex != f.main)
    && (forall i :: 0 <= i < |f.packs| ==> f.packs[i] < StreamCount(f.coders) && f.packs[i] < LIMIT32)
    && BondsDiffer(f.bonds) && PacksDiffer(f.packs, f.bonds)
  }

  /** A single packed stream is not written. */
  function FolderBytes(f: FolderInfo): seq<Byte>
    requires FolderOk(f)
  {
    Small(|f.coders|) + (CodersBytes(f.coders) + (BondBytes(f.bonds) + if |f.packs| == 1 then [] else PackBytes(f.packs)))
  }

  lemma {:induction false} CodersAreRead(data: seq<Byte>, at: nat, start: nat, cs: seq<CoderInfo>, acc: seq<Coder>)
    requires (forall i :: 0 <= i < |cs| ==> CoderOk(cs[i])) && start <= at && Stands(data, at, CodersBytes(cs))
    ensures Coders(data, at, start, |cs|, acc) == Some(At(acc + CodersRead(cs, at - start), at + |CodersBytes(cs)|))
    decreases |cs|
  {
    hide CoderOk, CoderBytes, CoderRead, OneCoder;
    if cs == [] {
      assert acc + CodersRead(cs, at - start) == acc;
    } else {
      StandsParts(data, at, CoderBytes(cs[0]), CodersBytes(cs[1..]));
      CoderIsRead(data, at, start, cs[0]);
      var c := CoderRead(cs[0], at - start);
      CodersAreRead(data, at + |CoderBytes(cs[0])|, start, cs[1..], acc + [c]);
      assert acc + [c] + CodersRead(cs[1..], at + |CoderBytes(cs[0])| - start) == acc + CodersRead(cs, at - start);
    }
  }

  lemma {:induction false} TotalOfFront(c: Coder, cs: seq<Coder>)
    ensures Total([c] + cs) == c.streams + Total(cs)
    decreases |cs|
  {
    if cs == [] {
      assert ([c] + cs)[..0] == [];
      assert [c] + cs == [c];
    } else {
      var n := |cs| - 1;
      TotalOfFront(c, cs[..n]);
      assert ([c] + cs)[..n + 1] == [c] + cs[..n];
    }
  }

  lemma {:induction false} TotalIsCount(cs: seq<CoderInfo>, at: nat)
    requires forall i :: 0 <= i < |cs| ==> CoderOk(cs[i])
    ensures Total(CodersRead(cs, at)) == StreamCount(cs)
    decreases |cs|
  {
    hide CoderOk, CoderBytes;
    if cs != [] {
      TotalIsCount(cs[1..], at + |CoderBytes(cs[0])|);
      TotalOfFront(CoderRead(cs[0], at), CodersRead(cs[1..], at + |CoderBytes(cs[0])|));
    }
  }

  function Ins(bonds: seq<Bond>): set<nat> { set i | 0 <= i < |bonds| :: bonds[i].inIndex }

  function Outs(bonds: seq<Bond>): set<nat> { set i | 0 <= i < |bonds| :: bonds[i].outIndex }

  lemma MoreBonds(acc: seq<Bond>, b: Bond)
    ensures Ins(acc + [b]) == Ins(acc) + {b.inIndex} && Outs(acc + [b]) == Outs(acc) + {b.outIndex}
  {
    var more := acc + [b];
    assert more[|acc|] == b;
    forall k | k in Ins(acc) ensures k in Ins(more) {
      var i :| 0 <= i < |acc| && acc[i].inIndex == k;
      assert more[i].inIndex == k;
    }
    forall k | k in Outs(acc) ensures k in Outs(more) {
      var i :| 0 <= i < |acc| && acc[i].outIndex == k;
      assert more[i].outIndex == k;
    }
  }

  lemma {:induction false} BondsAreRead(data: seq<Byte>, at: nat, streams: nat, coders: nat, acc: seq<Bond>, bonds: seq<Bond>)
    requires forall i :: 0 <= i < |bonds| ==>
               bonds[i].inIndex < streams && bonds[i].inIndex < LIMIT32 && bonds[i].outIndex < coders && bonds[i].outIndex < LIMIT32
    requires BondsDiffer(acc + bonds) && Stands(data, at, BondBytes(bonds))
    ensures Bonds(data, at, |bonds|, streams, coders, Bound(acc, Ins(acc), Outs(acc))) ==
            Some(At(Bound(acc + bonds, Ins(acc + bonds), Outs(acc + bonds)), at + |BondBytes(bonds)|))
    decreases |bonds|
  {
    hide Small, Number32, Ins, Outs;
    if bonds == [] {
      assert acc + bonds == acc;
    } else {
      var b := bonds[0];
      var x, y := Small(b.inIndex), Small(b.outIndex);
      StandsParts(data, at, x, y + BondBytes(bonds[1..]));
      StandsParts(data, at + |x|, y, BondBytes(bonds[1..]));
      SmallIsRead(data, at, b.inIndex);
      SmallIsRead(data, at + |x|, b.outIndex);
      Fresh(acc, bonds);
      MoreBonds(acc, b);
      assert acc + bonds == (acc + [b]) + bonds[1..];
      BondsAreRead(data, at + |x| + |y|, streams, coders, acc + [b], bonds[1..]);
    }
  }

  lemma Fresh(acc: seq<Bond>, bonds: seq<Bond>)
    requires BondsDiffer(acc + bonds) && bonds != []
    ensures bonds[0].inIndex !in Ins(acc) && bonds[0].outIndex !in Outs(acc)
  {
    assert (acc + bonds)[|acc|] == bonds[0];
    assert forall i :: 0 <= i < |acc| ==> (acc + bonds)[i] == acc[i];
  }

  lemma {:induction false} PacksAreRead(data: seq<Byte>, at: nat, streams: nat, used: set<nat>, acc: seq<nat>, packs: seq<nat>)
    requires forall i :: 0 <= i < |packs| ==> packs[i] < streams && packs[i] < LIMIT32 && packs[i] !in used
    requires (forall i, j :: 0 <= i < j < |packs| ==> packs[i] != packs[j]) && Stands(data, at, PackBytes(packs))
    ensures Packs(data, at, |packs|, streams, used, acc) == Some(At(acc + packs, at + |PackBytes(packs)|))
    decreases |packs|
  {
    hide Small, Number32;
    if packs == [] {
      assert acc + packs == acc;
    } else {
      StandsParts(data, at, Small(packs[0]), PackBytes(packs[1..]));
      SmallIsRead(data, at, packs[0]);
      assert acc + packs == (acc + [packs[0]]) + packs[1..];
      PacksAreRead(data, at + |Small(packs[0])|, streams, used + {packs[0]}, acc + [packs[0]], packs[1..]);
    }
  }

  lemma {:induction false} SmallSet(s: set<nat>, n: nat)
    requires forall k :: k in s ==> k < n
    ensures |s| <= n
    decreases n
  {
    if n == 0 {
      assert s == {};
    } else {
      SmallSet(s - {n - 1}, n - 1);
    }
  }

  /** When all numbers but one are used, the first that is not is that one. */
  lemma OnlyUnused(used: set<nat>, n: nat, k: nat)
    requires (forall j :: j in used ==> j < n) && |used| == n - 1 && k < n && k !in used
    ensures FirstUnused(0, used) == k
  {
    UnusedExists(used, n);
    var r := FirstUnused(0, used);
    if r != k {
      assert |used + {r} + {k}| == n + 1;
      SmallSet(used + {r} + {k}, n);
    }
  }

  lemma {:induction false} BondCount(bonds: seq<Bond>)
    requires BondsDiffer(bonds)
    ensures |Ins(bonds)| == |bonds| && |Outs(bonds)| == |bonds|
    decreases |bonds|
  {
    hide Ins, Outs;
    if bonds == [] {
      NoBonds();
    } else {
      var n := |bonds| - 1;
      assert bonds == bonds[..n] + [bonds[n]];
      BondCount(bonds[..n]);
      MoreBonds(bonds[..n], bonds[n]);
      Fresh(bonds[..n], [bonds[n]]);
    }
  }

  lemma NoBonds()
    ensures Ins([]) == {} && Outs([]) == {}
  {
  }

  /** The one stream that is left is the packed one. */
  lemma SinglePack(f: FolderInfo)
    requires FolderOk(f) && |f.packs| == 1
    ensures FirstUnused(0, Ins(f.bonds)) == f.packs[0]
  {
    hide CoderOk, FirstUnused, StreamCount;
    BondCount(f.bonds);
    OnlyUnused(Ins(f.bonds), StreamCount(f.coders), f.packs[0]);
  }

  lemma PackFacts(f: FolderInfo)
    requires FolderOk(f)
    ensures |f.bonds| + |f.packs| == StreamCount(f.coders)
    ensures forall i :: 0 <= i < |f.packs| ==>
              f.packs[i] < StreamCount(f.coders) && f.packs[i] < LIMIT32 && f.packs[i] !in Ins(f.bonds)
    ensures forall i, j :: 0 <= i < j < |f.packs| ==> f.packs[i] != f.packs[j]
  {
    hide CoderOk, StreamCount, BondsDiffer;
  }

  lemma PackStreamsAreRead(data: seq<Byte>, at: nat, f: FolderInfo)
    requires FolderOk(f) && Stands(data, at, if |f.packs| == 1 then [] else PackBytes(f.packs))
    ensures PackStreams(data, at, StreamCount(f.coders), |f.bonds|, Ins(f.bonds)) ==
            Some(At(f.packs, at + if |f.packs| == 1 then 0 else |PackBytes(f.packs)|))
  {
    hide PackBytes, FirstUnused, Packs, FolderOk, StreamCount, Ins, Stands;
    PackFacts(f);
    if |f.packs| == 1 {
      SinglePack(f);
      assert f.packs == [f.packs[0]];
    } else {
      assert [] + f.packs == f.packs;
      PacksAreRead(data, at, StreamCount(f.coders), Ins(f.bonds), [], f.packs);
    }
  }

  lemma BindingsAreRead(data: seq<Byte>, at: nat, f: FolderInfo, coders: seq<Coder>)
    requires FolderOk(f) && |coders| == |f.coders| && Total(coders) == StreamCount(f.coders)
    requires Stands(data, at, BondBytes(f.bonds) + if |f.packs| == 1 then [] else PackBytes(f.packs))
    ensures Bindings(data, at, coders) ==
            Some(At(Folder(coders, f.bonds, f.packs, f.main),
                    at + |BondBytes(f.bonds)| + if |f.packs| == 1 then 0 else |PackBytes(f.packs)|))
  {
    hide Small, Number32, CoderOk, PackBytes, BondBytes, FirstUnused, Bonds, PackStreams, Ins, Outs;
    var tail := if |f.packs| == 1 then [] else PackBytes(f.packs);
    StandsParts(data, at, BondBytes(f.bonds), tail);
    NoBonds();
    assert [] + f.bonds == f.bonds;
    BondsAreRead(data, at, StreamCount(f.coders), |f.coders|, [], f.bonds);
    PackStreamsAreRead(data, at + |BondBytes(f.bonds)|, f);
    MainIsUnused(f);
  }

  lemma MainIsUnused(f: FolderInfo)
    requires FolderOk(f)
    ensures FirstUnused(0, Outs(f.bonds)) == f.main
  {
    hide CoderOk, FirstUnused;
    BondCount(f.bonds);
    OnlyUnused(Outs(f.bonds), |f.coders|, f.main);
  }

  /** A folder is read back from its bytes, whatever stands before and after it. */
  lemma FolderIsRead(data: seq<Byte>, at: nat, f: FolderInfo)
    requires FolderOk(f) && Stands(data, at, FolderBytes(f))
    ensures Syntax(data, at) ==
            Some(At(Folder(CodersRead(f.coders, |Small(|f.coders|)|), f.bonds, f.packs, f.main), at + |FolderBytes(f)|))
  {
    hide Small, Number32, FolderOk, CoderOk, FolderBytes, CodersBytes, CodersRead, Coders, Bindings, Total, StreamCount, Stands;
    FolderParts(data, at, f);
    var n := |Small(|f.coders|)|;
    SmallIsRead(data, at, |f.coders|);
    CodersAreRead(data, at + n, at, f.coders, []);
    assert [] + CodersRead(f.coders, n) == CodersRead(f.coders, n);
    TotalIsCount(f.coders, n);
    BindingsAreRead(data, at + n + |CodersBytes(f.coders)|, f, CodersRead(f.coders, n));
  }

  lemma FolderParts(data: seq<Byte>, at: nat, f: FolderInfo)
    requires FolderOk(f) && Stands(data, at, FolderBytes(f))
    ensures 1 <= |f.coders| < LIMIT32 && forall i :: 0 <= i < |f.coders| ==> CoderOk(f.coders[i])
    ensures |f.bonds| == |f.coders| - 1
    ensures forall i :: 0 <= i < |f.bonds| ==> f.bonds[i].inIndex < LIMIT32 && f.bonds[i].outIndex < LIMIT32
    ensures forall i :: 0 <= i < |f.packs| ==> f.packs[i] < LIMIT32
    ensures var n, m := |Small(|f.coders|)|, |CodersBytes(f.coders)|;
            var tail := if |f.packs| == 1 then [] else PackBytes(f.packs);
            && Stands(data, at, Small(|f.coders|)) && Stands(data, at + n, CodersBytes(f.coders))
            && Stands(data, at + n + m, BondBytes(f.bonds) + tail)
            && |FolderBytes(f)| == n + m + |BondBytes(f.bonds)| + |tail|
  {
    hide Small, CoderOk, PackBytes, BondBytes, CodersBytes, Stands;
    var tail := if |f.packs| == 1 then [] else PackBytes(f.packs);
    StandsParts(data, at, Small(|f.coders|), CodersBytes(f.coders) + (BondBytes(f.bonds) + tail));
    StandsParts(data, at + |Small(|f.coders|)|, CodersBytes(f.coders), BondBytes(f.bonds) + tail);
  }

  /** The properties of a coder are found where the folder says. */
  lemma {:induction false} PropsAreFound(data: seq<Byte>, at: nat, start: nat, cs: seq<CoderInfo>, i: nat)
    requires (forall j :: 0 <= j < |cs| ==> CoderOk(cs[j])) && start <= at && i < |cs| && cs[i].props.Some?
    requires Stands(data, at, CodersBytes(cs))
    ensures var c := CodersRead(cs, at - start)[i];
            c.propsSize == |cs[i].props.value| && Stands(data, start + c.propsAt, cs[i].props.value)
    decreases |cs|
  {
    hide CoderOk, CoderBytes, CoderRead;
    StandsParts(data, at, CoderBytes(cs[0]), CodersBytes(cs[1..]));
    if i == 0 {
      OwnProps(data, at, start, cs[0]);
    } else {
      PropsAreFound(data, at + |CoderBytes(cs[0])|, start, cs[1..], i - 1);
    }
  }

  lemma OwnProps(data: seq<Byte>, at: nat, start: nat, c: CoderInfo)
    requires CoderOk(c) && c.props.Some? && start <= at && Stands(data, at, CoderBytes(c))
    ensures var r := CoderRead(c, at - start);
            r.propsSize == |c.props.value| && Stands(data, start + r.propsAt, c.props.value)
  {
    hide Small, StreamBytes, BigBytes, Flags;
    var front := [Flags(c)] + (BigBytes(c.id, c.idSize) + (StreamBytes(c) + Small(|c.props.value|)));
    assert CoderBytes(c) == front + c.props.value;
    StandsParts(data, at, front, c.props.value);
  }

  // ---------------------------------------------------------------- nothing else is accepted

  lemma {:induction false} BondsAreFormed(data: seq<Byte>, at: nat, n: nat, streams: nat, coders: nat, acc: seq<Bond>)
    requires BondsDiffer(acc) && forall b :: b in acc ==> b.inIndex < streams && b.outIndex < coders
    ensures Bonds(data, at, n, streams, coders, Bound(acc, Ins(acc), Outs(acc))).Some? ==>
              var r := Bonds(data, at, n, streams, coders, Bound(acc, Ins(acc), Outs(acc))).value.value;
              && r == Bound(r.bonds, Ins(r.bonds), Outs(r.bonds)) && |r.bonds| == |acc| + n && BondsDiffer(r.bonds)
              && forall b :: b in r.bonds ==> b.inIndex < streams && b.outIndex < coders
    decreases n
  {
    hide Number32, Ins, Outs, BondsDiffer;
    if n > 0 && Number32(data, at).Some? {
      var i := Number32(data, at).value;
      if i.value < streams && i.value !in Ins(acc) && Number32(data, i.next).Some? {
        var o := Number32(data, i.next).value;
        if o.value < coders && o.value !in Outs(acc) {
          var b := Bond(i.value, o.value);
          MoreBonds(acc, b);
          StillDiffer(acc, b);
          BondsAreFormed(data, o.next, n - 1, streams, coders, acc + [b]);
        }
      }
    }
  }

  lemma StillDiffer(acc: seq<Bond>, b: Bond)
    requires BondsDiffer(acc) && b.inIndex !in Ins(acc) && b.outIndex !in Outs(acc)
    ensures BondsDiffer(acc + [b])
  {
  }

  lemma {:induction false} PacksAreFormed(data: seq<Byte>, at: nat, n: nat, streams: nat, used: set<nat>, acc: seq<nat>)
    ensures Packs(data, at, n, streams, used, acc).Some? ==>
              var r := Packs(data, at, n, streams, used, acc).value.value;
              && |r| == |acc| + n && acc <= r
              && (forall i :: |acc| <= i < |r| ==> r[i] < streams && r[i] !in used)
              && (forall i, j :: |acc| <= i < j < |r| ==> r[i] != r[j])
    decreases n
  {
    hide Number32;
    if n > 0 && Number32(data, at).Some? {
      var i := Number32(data, at).value;
      if i.value < streams && i.value !in used {
        PacksAreFormed(data, i.next, n - 1, streams, used + {i.value}, acc + [i.value]);
      }
    }
  }

  /** A folder that is accepted binds the output of every coder but the main one, uses no stream twice, and packs exactly
      the streams that are not bound. */
  ghost predicate Formed(f: Folder) {
    && f.coders != [] && |f.bonds| == |f.coders| - 1 && |f.bonds| + |f.packs| == Total(f.coders)
    && (forall b :: b in f.bonds ==> b.inIndex < Total(f.coders) && b.outIndex < |f.coders| && b.outIndex != f.main)
    && (forall i :: 0 <= i < |f.packs| ==> f.packs[i] < Total(f.coders))
    && f.main < |f.coders| && BondsDiffer(f.bonds) && PacksDiffer(f.packs, f.bonds)
  }

  lemma PackStreamsAreFormed(data: seq<Byte>, at: nat, streams: nat, bonds: seq<Bond>)
    requires |bonds| <= streams && BondsDiffer(bonds) && PackStreams(data, at, streams, |bonds|, Ins(bonds)).Some?
    ensures var r := PackStreams(data, at, streams, |bonds|, Ins(bonds)).value.value;
            |bonds| + |r| == streams && (forall i :: 0 <= i < |r| ==> r[i] < streams) && PacksDiffer(r, bonds)
  {
    hide Packs, FirstUnused, BondsDiffer;
    BondCount(bonds);
    if streams - |bonds| == 1 {
      UnusedExists(Ins(bonds), streams);
    } else {
      PacksAreFormed(data, at, streams - |bonds|, streams, Ins(bonds), []);
    }
  }

  lemma BindingsAreFormed(data: seq<Byte>, at: nat, coders: seq<Coder>)
    requires coders != [] && Bindings(data, at, coders).Some?
    ensures Formed(Bindings(data, at, coders).value.value)
  {
    hide Bonds, PackStreams, FirstUnused, Total, BondsDiffer, PacksDiffer, Ins, Outs;
    var streams, n := Total(coders), |coders| - 1;
    NoBonds();
    NoneDiffer();
    BondsAreFormed(data, at, n, streams, |coders|, []);
    var b := Bonds(data, at, n, streams, |coders|, Bound([], {}, {})).value;
    BondCount(b.value.bonds);
    PackStreamsAreFormed(data, b.next, streams, b.value.bonds);
    UnusedExists(Outs(b.value.bonds), |coders|);
    MainIsUnbound(b.value.bonds);
  }

  lemma NoneDiffer()
    ensures BondsDiffer([])
  {
  }

  lemma MainIsUnbound(bonds: seq<Bond>)
    ensures forall b :: b in bonds ==> b.outIndex != FirstUnused(0, Outs(bonds))
  {
    hide FirstUnused;
    forall b | b in bonds ensures b.outIndex in Outs(bonds) {
    }
  }

  lemma AcceptedIsFormed(data: seq<Byte>, at: nat)
    requires Syntax(data, at).Some?
    ensures Formed(Syntax(data, at).value.value)
  {
    hide Coders, Number32, Bindings, Formed;
    var n := Number32(data, at).value;
    var cs := Coders(data, n.next, at, n.value, []).value;
    BindingsAreFormed(data, cs.next, cs.value);
  }
}
