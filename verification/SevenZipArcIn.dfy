/** The two parsers of 7z folders: one scans the headers of all folders, the other reads a folder to decode it. */
module SevenZipArcIn {
  import opened Options
  import opened LowBits
  import opened SevenZipNumbers
  import opened SevenZipFolders

  const NUM_CODERS: nat := 4
  const NUM_PACK_STREAMS: nat := 4
  const NUM_STREAMS: nat := 7
  const SCAN_CODERS: nat := 64
  const SCAN_STREAMS: nat := 64

  // ---------------------------------------------------------------- limits

  predicate CoderOk(c: Coder) { c.streams <= NUM_STREAMS && c.id <= 0xFFFF_FFFF && c.propsSize < 0x80 }

  predicate CodersOk(cs: seq<Coder>) { (forall c :: c in cs ==> CoderOk(c)) && Total(cs) <= NUM_STREAMS }

  /** What the decoder supports. */
  predicate ItemOk(f: Folder) {
    && |f.coders| <= NUM_CODERS && CodersOk(f.coders) && Total(f.coders) + 1 <= |f.coders| + NUM_PACK_STREAMS
  }

  predicate FewStreams(cs: seq<Coder>) { forall c :: c in cs ==> c.streams <= SCAN_STREAMS }

  /** What the scan supports. */
  predicate ScanOk(f: Folder) {
    && |f.coders| <= SCAN_CODERS && FewStreams(f.coders)
    && ((|f.coders| == 1 && Total(f.coders) == 1) || Total(f.coders) <= SCAN_STREAMS)
  }

  lemma {:induction false} TotalGrows(a: seq<Coder>, b: seq<Coder>)
    requires a <= b
    ensures Total(a) <= Total(b)
    decreases |b|
  {
    if |a| < |b| {
      TotalGrows(a, b[..|b| - 1]);
    } else {
      assert a == b;
    }
  }

  lemma TotalOfMore(a: seq<Coder>, c: Coder)
    ensures Total(a + [c]) == Total(a) + c.streams
  {
    assert (a + [c])[..|a|] == a;
  }

  /** A coder that is not supported is not made up for by later ones. */
  lemma BadCoder(data: seq<Byte>, at: nat, start: nat, n: nat, acc: seq<Coder>)
    requires start <= at && n > 0
    requires OneCoder(data, at, start).Some? ==> !CodersOk(acc + [OneCoder(data, at, start).value.value])
    ensures Coders(data, at, start, n, acc).Some? ==> !CodersOk(Coders(data, at, start, n, acc).value.value)
  {
    hide OneCoder, CoderOk;
    if Coders(data, at, start, n, acc).Some? {
      var more, all := acc + [OneCoder(data, at, start).value.value], Coders(data, at, start, n, acc).value.value;
      TotalGrows(more, all);
      forall c | c in more ensures c in all {
        assert exists i :: 0 <= i < |more| && more[i] == c && all[i] == c;
      }
    }
  }

  // ---------------------------------------------------------------- indices that may be used once

  /** The flags say which numbers below `n` are used. */
  ghost predicate Marks(flags: seq<bool>, used: set<nat>, n: nat) {
    && n <= |flags| && (forall k: nat :: k < n ==> (flags[k] <==> k in used)) && forall k :: k in used ==> k < n
  }

  /** Reads an index below `n` that has not been used yet, and marks it. */
  method ReadIndex(sd: SzData, flags: array<bool>, n: nat, ghost used: set<nat>) returns (res: Status, index: nat)
    requires sd.Valid() && Marks(flags[..], used, n)
    modifies sd`at, flags
    ensures sd.Valid()
    ensures res == Ok <==>
              var i := Number32(sd.data, old(sd.at));
              i.Some? && i.value.value < n && i.value.value !in used
    ensures res == Ok ==> Number32(sd.data, old(sd.at)) == Some(At(index, sd.at)) && Marks(flags[..], used + {index}, n)
  {
    hide Number32;
    res, index := sd.ReadNumber32();
    if res != Ok {
      return;
    }
    if index >= n || flags[index] {
      return ErrorArchive, index;
    }
    flags[index] := true;
  }

  /** The first unmarked number, or `n`. */
  method FindUnused(flags: array<bool>, n: nat, ghost used: set<nat>) returns (i: nat)
    requires Marks(flags[..], used, n)
    ensures i <= n && (i < n ==> i == FirstUnused(0, used)) && (i == n ==> FirstUnused(0, used) >= n)
  {
    i := 0;
    while i < n && flags[i]
      invariant i <= n && forall k: nat :: k < i ==> k in used
      decreases n - i
    {
      i := i + 1;
    }
    assert FirstUnused(0, used) >= i;
  }

  /** Reads bonds; the bonds are what the folder's syntax says, or the folder is wrong. */
  method ReadBonds(sd: SzData, n: nat, streamUsed: array<bool>, streams: nat, coderUsed: array<bool>, coders: nat)
    returns (res: Status, bonds: seq<Bond>, ghost usedIn: set<nat>, ghost usedOut: set<nat>)
    requires sd.Valid() && streamUsed != coderUsed
    requires Marks(streamUsed[..], {}, streams) && Marks(coderUsed[..], {}, coders)
    modifies sd`at, streamUsed, coderUsed
    ensures sd.Valid()
    ensures res == Ok <==> Bonds(sd.data, old(sd.at), n, streams, coders, Bound([], {}, {})).Some?
    ensures res == Ok ==>
              && Bonds(sd.data, old(sd.at), n, streams, coders, Bound([], {}, {})) == Some(At(Bound(bonds, usedIn, usedOut), sd.at))
              && Marks(streamUsed[..], usedIn, streams) && Marks(coderUsed[..], usedOut, coders)
  {
    hide Number32, Marks;
    res, bonds, usedIn, usedOut := Ok, [], {}, {};
    for i := 0 to n
      invariant sd.Valid() && res == Ok
      invariant Marks(streamUsed[..], usedIn, streams) && Marks(coderUsed[..], usedOut, coders)
      invariant Bonds(sd.data, old(sd.at), n, streams, coders, Bound([], {}, {})) ==
                Bonds(sd.data, sd.at, n - i, streams, coders, Bound(bonds, usedIn, usedOut))
    {
      var inIndex, outIndex;
      res, inIndex := ReadIndex(sd, streamUsed, streams, usedIn);
      if res != Ok {
        return;
      }
      res, outIndex := ReadIndex(sd, coderUsed, coders, usedOut);
      if res != Ok {
        return;
      }
      bonds := bonds + [Bond(inIndex, outIndex)];
      usedIn, usedOut := usedIn + {inIndex}, usedOut + {outIndex};
    }
  }

  /** Reads the indices of the packed streams. */
  method ReadPacks(sd: SzData, n: nat, streamUsed: array<bool>, streams: nat, ghost before: set<nat>)
    returns (res: Status, packs: seq<nat>)
    requires sd.Valid() && Marks(streamUsed[..], before, streams)
    modifies sd`at, streamUsed
    ensures sd.Valid() && (res == Ok <==> Packs(sd.data, old(sd.at), n, streams, before, []).Some?)
    ensures res == Ok ==> Packs(sd.data, old(sd.at), n, streams, before, []) == Some(At(packs, sd.at))
  {
    hide Number32, Marks;
    res, packs := Ok, [];
    ghost var used := before;
    for i := 0 to n
      invariant sd.Valid() && res == Ok && Marks(streamUsed[..], used, streams)
      invariant Packs(sd.data, old(sd.at), n, streams, before, []) == Packs(sd.data, sd.at, n - i, streams, used, packs)
    {
      var index;
      res, index := ReadIndex(sd, streamUsed, streams, used);
      if res != Ok {
        return;
      }
      packs := packs + [index];
      used := used + {index};
    }
  }

  // ---------------------------------------------------------------- reading a folder

  /** The number of streams of a coder, within what the decoder supports. */
  method ReadStreams(sd: SzData, main: Byte) returns (res: Status, streams: nat)
    requires sd.Valid()
    modifies sd`at
    ensures sd.Valid()
    ensures res == Ok <==>
              var s := Streams(sd.data, old(sd.at), main);
              s.Some? && s.value.value <= NUM_STREAMS
    ensures res == Ok ==> Streams(sd.data, old(sd.at), main) == Some(At(streams, sd.at))
  {
    hide Number32;
    if main / 0x10 % 2 == 0 {
      return Ok, 1;
    }
    res, streams := sd.ReadNumber32();
    if res != Ok {
      return;
    }
    if streams > NUM_STREAMS {
      return ErrorUnsupported, streams;
    }
    var outs;
    res, outs := sd.ReadNumber32();
    if res == Ok && outs != 1 {
      res := ErrorUnsupported;
    }
  }

  method ReadProps(sd: SzData, main: Byte, start: nat) returns (res: Status, propsAt: nat, propsSize: nat)
    requires sd.Valid() && start <= sd.at
    modifies sd`at
    ensures sd.Valid()
    ensures res == Ok <==>
              var p := Props(sd.data, old(sd.at), start, main);
              p.Some? && p.value.value.1 < 0x80
    ensures res == Ok ==> Props(sd.data, old(sd.at), start, main) == Some(At((propsAt, propsSize), sd.at))
  {
    hide Number32;
    if main / 0x20 % 2 == 0 {
      return Ok, 0, 0;
    }
    res, propsSize := sd.ReadNumber32();
    propsAt := 0;
    if res != Ok {
      return;
    }
    if propsSize > |sd.data| - sd.at {
      return ErrorArchive, 0, 0;
    }
    if propsSize >= 0x80 {
      return ErrorUnsupported, 0, 0;
    }
    propsAt := sd.at - start;
    sd.at := sd.at + propsSize;
  }

  /** The method id, most significant byte first. */
  method ReadId(sd: SzData, idSize: nat) returns (id: nat)
    requires sd.Valid() && sd.at + idSize <= |sd.data|
    modifies sd`at
    ensures sd.Valid() && sd.at == old(sd.at) + idSize && id == BigEndian(sd.data[old(sd.at)..sd.at])
  {
    id := 0;
    for j := 0 to idSize
      invariant sd.at == old(sd.at) + j && id == BigEndian(sd.data[old(sd.at)..sd.at])
    {
      SliceMore(sd.data, old(sd.at), sd.at);
      BigEndianMore(sd.data[old(sd.at)..sd.at], sd.data[sd.at]);
      id := id * 256 + sd.data[sd.at];
      sd.at := sd.at + 1;
    }
  }

  lemma BigEndianMore(s: seq<Byte>, b: Byte)
    ensures BigEndian(s + [b]) == 256 * BigEndian(s) + b
  {
    assert (s + [b])[..|s|] == s;
  }

  /** One coder, after coders with `total` streams. */
  method ReadCoder(sd: SzData, start: nat, total: nat) returns (res: Status, coder: Coder)
    requires sd.Valid() && start <= sd.at && total <= NUM_STREAMS
    modifies sd`at
    ensures sd.Valid()
    ensures res == Ok <==>
              var c := OneCoder(sd.data, old(sd.at), start);
              c.Some? && CoderOk(c.value.value) && total + c.value.value.streams <= NUM_STREAMS
    ensures res == Ok ==> OneCoder(sd.data, old(sd.at), start) == Some(At(coder, sd.at))
  {
    hide Streams, Props, BigEndian;
    coder := Coder(0, 0, 0, 0);
    if sd.at == |sd.data| {
      return ErrorArchive, coder;
    }
    var main := sd.data[sd.at];
    sd.at := sd.at + 1;
    if main / 0x40 != 0 {
      return ErrorUnsupported, coder;
    }
    var idSize := main % 0x10;
    if idSize > 8 {
      return ErrorUnsupported, coder;
    }
    if idSize > |sd.data| - sd.at {
      return ErrorArchive, coder;
    }
    var id := ReadId(sd, idSize);
    if id > 0xFFFF_FFFF {
      return ErrorUnsupported, coder;
    }
    var streams, propsAt, propsSize;
    res, streams := ReadStreams(sd, main);
    if res != Ok {
      return;
    }
    if total + streams > NUM_STREAMS {
      return ErrorUnsupported, coder;
    }
    res, propsAt, propsSize := ReadProps(sd, main, start);
    coder := Coder(id, streams, propsAt, propsSize);
  }

  /** All coders of a folder. */
  method ReadCoders(sd: SzData, start: nat, n: nat) returns (res: Status, coders: seq<Coder>, total: nat)
    requires sd.Valid() && start <= sd.at
    modifies sd`at
    ensures sd.Valid()
    ensures res == Ok <==>
              var c := Coders(sd.data, old(sd.at), start, n, []);
              c.Some? && CodersOk(c.value.value)
    ensures res == Ok ==> Coders(sd.data, old(sd.at), start, n, []) == Some(At(coders, sd.at)) && total == Total(coders)
  {
    hide OneCoder, CoderOk;
    res, coders, total := Ok, [], 0;
    for i := 0 to n
      invariant sd.Valid() && start <= sd.at && res == Ok && CodersOk(coders) && total == Total(coders)
      invariant Coders(sd.data, old(sd.at), start, n, []) == Coders(sd.data, sd.at, start, n - i, coders)
    {
      ghost var at := sd.at;
      var coder;
      res, coder := ReadCoder(sd, start, total);
      MoreCoders(sd.data, at, start, n - i, coders);
      if res != Ok {
        return;
      }
      TotalOfMore(coders, coder);
      coders := coders + [coder];
      total := total + coder.streams;
    }
  }

  lemma MoreCoders(data: seq<Byte>, at: nat, start: nat, n: nat, acc: seq<Coder>)
    requires start <= at && n > 0 && CodersOk(acc)
    ensures var c := OneCoder(data, at, start);
            if c.Some? && CoderOk(c.value.value) && Total(acc) + c.value.value.streams <= NUM_STREAMS
            then CodersOk(acc + [c.value.value]) && Coders(data, at, start, n, acc) == Coders(data, c.value.next, start, n - 1, acc + [c.value.value])
            else Coders(data, at, start, n, acc).Some? ==> !CodersOk(Coders(data, at, start, n, acc).value.value)
  {
    hide OneCoder, CoderOk;
    var c := OneCoder(data, at, start);
    if c.Some? {
      TotalOfMore(acc, c.value.value);
      assert c.value.value in acc + [c.value.value];
    }
    if !(c.Some? && CoderOk(c.value.value) && Total(acc) + c.value.value.streams <= NUM_STREAMS) {
      BadCoder(data, at, start, n, acc);
    }
  }

  /** Bonds, main coder and packed streams of a folder that is to be decoded. */
  method ReadBindings(sd: SzData, coders: seq<Coder>, streams: nat) returns (res: Status, folder: Folder)
    requires sd.Valid() && 1 <= |coders| <= NUM_CODERS && streams == Total(coders) <= NUM_STREAMS
    modifies sd`at
    ensures sd.Valid()
    ensures res == Ok <==> Bindings(sd.data, old(sd.at), coders).Some? && streams + 1 <= |coders| + NUM_PACK_STREAMS
    ensures res == Ok ==> Bindings(sd.data, old(sd.at), coders) == Some(At(folder, sd.at))
  {
    hide Bonds, Packs, FirstUnused, Total, Marks;
    folder := Folder([], [], [], 0);
    var numBonds := |coders| - 1;
    if streams < numBonds {
      return ErrorArchive, folder;
    }
    var numPacks := streams - numBonds;
    if numPacks > NUM_PACK_STREAMS {
      return ErrorUnsupported, folder;
    }
    ghost var start := sd.at;
    var streamUsed := new bool[NUM_STREAMS](_ => false);
    var coderUsed := new bool[NUM_CODERS](_ => false);
    NothingMarked(streamUsed[..], streams);
    NothingMarked(coderUsed[..], |coders|);
    var bonds;
    ghost var usedIn, usedOut;
    res, bonds, usedIn, usedOut := ReadBonds(sd, numBonds, streamUsed, streams, coderUsed, |coders|);
    if res != Ok {
      return;
    }
    Fewer(sd.data, start, numBonds, streams, |coders|);
    var main := FindUnused(coderUsed, |coders|, usedOut);
    if numBonds == 0 {
      main := 0;
    }
    var packs;
    if numPacks == 1 {
      var only := FindUnused(streamUsed, streams, usedIn);
      packs := [only];
    } else {
      res, packs := ReadPacks(sd, numPacks, streamUsed, streams, usedIn);
    }
    folder := Folder(coders, bonds, packs, main);
  }

  lemma NothingMarked(flags: seq<bool>, n: nat)
    requires n <= |flags| && forall k :: 0 <= k < |flags| ==> !flags[k]
    ensures Marks(flags, {}, n)
  {
  }

  /** With fewer bonds than coders one coder is unbound; with fewer bonds than streams one stream is. */
  lemma Fewer(data: seq<Byte>, at: nat, n: nat, streams: nat, coders: nat)
    requires Bonds(data, at, n, streams, coders, Bound([], {}, {})).Some? && n < coders
    ensures var b := Bonds(data, at, n, streams, coders, Bound([], {}, {})).value.value;
            FirstUnused(0, b.usedOut) < coders && (n < streams ==> FirstUnused(0, b.usedIn) < streams)
  {
    hide Bonds, FirstUnused;
    var b := Bonds(data, at, n, streams, coders, Bound([], {}, {})).value.value;
    BondsUse(data, at, n, streams, coders, Bound([], {}, {}));
    UnusedExists(b.usedOut, coders);
    if n < streams {
      UnusedExists(b.usedIn, streams);
    }
  }

  /** Reads a folder, in order to decode it. It is accepted exactly if it is well formed and within the limits. */
  method GetNextFolderItem(sd: SzData) returns (res: Status, folder: Folder)
    requires sd.Valid()
    modifies sd`at
    ensures sd.Valid()
    ensures res == Ok <==> Syntax(sd.data, old(sd.at)).Some? && ItemOk(Syntax(sd.data, old(sd.at)).value.value)
    ensures res == Ok ==> Syntax(sd.data, old(sd.at)) == Some(At(folder, sd.at))
  {
    hide Number32, Coders, Bindings, CodersOk, Total;
    ghost var start := sd.at;
    var at := sd.at;
    folder := Folder([], [], [], 0);
    var numCoders;
    res, numCoders := sd.ReadNumber32();
    SyntaxCoders(sd.data, start);
    if res != Ok {
      return;
    }
    if numCoders == 0 || numCoders > NUM_CODERS {
      return ErrorUnsupported, folder;
    }
    var coders, total;
    res, coders, total := ReadCoders(sd, at, numCoders);
    if res != Ok {
      return;
    }
    StreamsBounded(coders);
    res, folder := ReadBindings(sd, coders, total);
  }

  /** The coders of a folder are those that are read. */
  lemma SyntaxCoders(data: seq<Byte>, at: nat)
    ensures Syntax(data, at).Some? ==>
              var n := Number32(data, at);
              && n.Some? && n.value.value > 0 && Coders(data, n.value.next, at, n.value.value, []).Some?
              && Syntax(data, at).value.value.coders == Coders(data, n.value.next, at, n.value.value, []).value.value
              && |Syntax(data, at).value.value.coders| == n.value.value
  {
    hide Number32, Coders, Bonds, PackStreams;
  }

  lemma StreamsBounded(cs: seq<Coder>)
    ensures CodersOk(cs) ==> Total(cs) <= NUM_STREAMS
  {
  }

  // ---------------------------------------------------------------- scanning a folder

  /** The scan reads both stream counts before it looks at either. */
  method ScanStreams(sd: SzData, main: Byte) returns (res: Status, streams: nat)
    requires sd.Valid()
    modifies sd`at
    ensures sd.Valid()
    ensures res == Ok <==>
              var s := Streams(sd.data, old(sd.at), main);
              s.Some? && s.value.value <= SCAN_STREAMS
    ensures res == Ok ==> Streams(sd.data, old(sd.at), main) == Some(At(streams, sd.at))
  {
    hide Number32;
    if main / 0x10 % 2 == 0 {
      return Ok, 1;
    }
    res, streams := sd.ReadNumber32();
    if res != Ok {
      return;
    }
    var outs;
    res, outs := sd.ReadNumber32();
    if res == Ok && (streams > SCAN_STREAMS || outs != 1) {
      res := ErrorUnsupported;
    }
  }

  method SkipProps(sd: SzData, main: Byte, ghost start: nat) returns (res: Status)
    requires sd.Valid() && start <= sd.at
    modifies sd`at
    ensures sd.Valid() && (res == Ok <==> Props(sd.data, old(sd.at), start, main).Some?)
    ensures res == Ok ==> Props(sd.data, old(sd.at), start, main).value.next == sd.at
  {
    hide Number32;
    if main / 0x20 % 2 == 0 {
      return Ok;
    }
    var propsSize;
    res, propsSize := sd.ReadNumber32();
    if res != Ok {
      return;
    }
    if propsSize > |sd.data| - sd.at {
      return ErrorArchive;
    }
    sd.at := sd.at + propsSize;
  }

  method ScanCoder(sd: SzData, ghost start: nat) returns (res: Status, streams: nat, ghost coder: Coder)
    requires sd.Valid() && start <= sd.at
    modifies sd`at
    ensures sd.Valid()
    ensures res == Ok <==>
              var c := OneCoder(sd.data, old(sd.at), start);
              c.Some? && c.value.value.streams <= SCAN_STREAMS
    ensures res == Ok ==> OneCoder(sd.data, old(sd.at), start) == Some(At(coder, sd.at)) && streams == coder.streams
  {
    hide Streams, Props, BigEndian;
    streams, coder := 0, Coder(0, 0, 0, 0);
    if sd.at == |sd.data| {
      return ErrorArchive, streams, coder;
    }
    ghost var parsed := OneCoder(sd.data, sd.at, start);
    var main := sd.data[sd.at];
    sd.at := sd.at + 1;
    if main / 0x40 != 0 {
      return ErrorUnsupported, streams, coder;
    }
    var idSize := main % 0x10;
    if idSize > 8 {
      return ErrorUnsupported, streams, coder;
    }
    if idSize > |sd.data| - sd.at {
      return ErrorArchive, streams, coder;
    }
    sd.at := sd.at + idSize;
    res, streams := ScanStreams(sd, main);
    if res != Ok {
      return;
    }
    res := SkipProps(sd, main, start);
    if res == Ok {
      coder := parsed.value.value;
    }
  }

  lemma MoreFewStreams(data: seq<Byte>, at: nat, start: nat, n: nat, acc: seq<Coder>)
    requires start <= at && n > 0 && FewStreams(acc)
    ensures var c := OneCoder(data, at, start);
            if c.Some? && c.value.value.streams <= SCAN_STREAMS
            then FewStreams(acc + [c.value.value]) && Coders(data, at, start, n, acc) == Coders(data, c.value.next, start, n - 1, acc + [c.value.value])
            else Coders(data, at, start, n, acc).Some? ==> !FewStreams(Coders(data, at, start, n, acc).value.value)
  {
    hide OneCoder;
    var c := OneCoder(data, at, start);
    if c.Some? && c.value.value.streams > SCAN_STREAMS && Coders(data, at, start, n, acc).Some? {
      var more, all := acc + [c.value.value], Coders(data, at, start, n, acc).value.value;
      assert more[|acc|] == c.value.value && all[|acc|] == more[|acc|];
    }
  }

  method ScanCoders(sd: SzData, ghost start: nat, n: nat) returns (res: Status, total: nat, ghost coders: seq<Coder>)
    requires sd.Valid() && start <= sd.at
    modifies sd`at
    ensures sd.Valid()
    ensures res == Ok <==>
              var c := Coders(sd.data, old(sd.at), start, n, []);
              c.Some? && FewStreams(c.value.value)
    ensures res == Ok ==> Coders(sd.data, old(sd.at), start, n, []) == Some(At(coders, sd.at)) && total == Total(coders)
  {
    hide OneCoder;
    res, coders, total := Ok, [], 0;
    for i := 0 to n
      invariant sd.Valid() && start <= sd.at && res == Ok && FewStreams(coders) && total == Total(coders)
      invariant Coders(sd.data, old(sd.at), start, n, []) == Coders(sd.data, sd.at, start, n - i, coders)
    {
      ghost var at := sd.at;
      var streams;
      ghost var coder;
      res, streams, coder := ScanCoder(sd, start);
      MoreFewStreams(sd.data, at, start, n - i, coders);
      if res != Ok {
        return;
      }
      TotalOfMore(coders, coder);
      coders := coders + [coder];
      total := total + streams;
    }
  }

  /** Skips the bonds and packed streams of a folder, and finds its main coder. */
  method ScanBindings(sd: SzData, n: nat, total: nat, ghost coders: seq<Coder>)
    returns (res: Status, main: nat, packs: nat)
    requires sd.Valid() && 1 <= n == |coders| <= SCAN_CODERS && total == Total(coders)
    modifies sd`at
    ensures sd.Valid()
    ensures res == Ok <==> Bindings(sd.data, old(sd.at), coders).Some? && ((n == 1 && total == 1) || total <= SCAN_STREAMS)
    ensures res == Ok ==>
              var f := Bindings(sd.data, old(sd.at), coders).value;
              f.next == sd.at && f.value.main == main && packs + n == total + 1
  {
    hide Bonds, Packs, FirstUnused, Total, Marks;
    main, packs := 0, 1;
    ghost var start := sd.at;
    if n == 1 && total == 1 {
      OneAndOne(sd.data, start);
      return Ok, 0, 1;
    }
    var numBonds := n - 1;
    if total < numBonds {
      return ErrorArchive, main, packs;
    }
    if total > SCAN_STREAMS {
      return ErrorUnsupported, main, packs;
    }
    var streamUsed := new bool[SCAN_STREAMS](_ => false);
    var coderUsed := new bool[SCAN_CODERS](_ => false);
    NothingMarked(streamUsed[..], total);
    NothingMarked(coderUsed[..], n);
    var bonds;
    ghost var usedIn, usedOut;
    res, bonds, usedIn, usedOut := ReadBonds(sd, numBonds, streamUsed, total, coderUsed, n);
    if res != Ok {
      return;
    }
    Fewer(sd.data, start, numBonds, total, n);
    packs := total - numBonds;
    if packs != 1 {
      var indices;
      res, indices := ReadPacks(sd, packs, streamUsed, total, usedIn);
      if res != Ok {
        return;
      }
    }
    main := FindUnused(coderUsed, n, usedOut);
  }

  lemma OneAndOne(data: seq<Byte>, at: nat)
    ensures Bonds(data, at, 0, 1, 1, Bound([], {}, {})) == Some(At(Bound([], {}, {}), at)) && FirstUnused(0, {}) == 0
  {
  }

  /** Scans a folder: its length, its main coder, and the numbers of its coders and packed streams. */
  method ScanFolder(sd: SzData) returns (res: Status, main: nat, numCoders: nat, packs: nat)
    requires sd.Valid()
    modifies sd`at
    ensures sd.Valid()
    ensures res == Ok <==> Syntax(sd.data, old(sd.at)).Some? && ScanOk(Syntax(sd.data, old(sd.at)).value.value)
    ensures res == Ok ==>
              var f := Syntax(sd.data, old(sd.at)).value;
              && f.next == sd.at && f.value.main == main && |f.value.coders| == numCoders
              && packs + numCoders == Total(f.value.coders) + 1
  {
    hide Number32, Coders, Bindings, FewStreams, Total;
    ghost var start := sd.at;
    main, packs := 0, 0;
    res, numCoders := sd.ReadNumber32();
    SyntaxCoders(sd.data, start);
    if res != Ok {
      return;
    }
    if numCoders == 0 || numCoders > SCAN_CODERS {
      return ErrorUnsupported, main, numCoders, packs;
    }
    var total;
    ghost var coders;
    res, total, coders := ScanCoders(sd, start, numCoders);
    if res != Ok {
      return;
    }
    res, main, packs := ScanBindings(sd, numCoders, total, coders);
  }

  // ---------------------------------------------------------------- the parsers agree

  /** Whatever can be decoded can be scanned. */
  lemma ItemsScan(f: Folder)
    requires ItemOk(f)
    ensures ScanOk(f)
  {
    hide Total;
  }

  /** Scans a folder, and later reads the bytes that the scan has passed over, as decoding does. The second parser
      accepts them exactly when they are within its limits; it uses all of them, and finds the same main coder. */
  method ScanAndRead(data: seq<Byte>, at: nat) returns (scan: Status, res: Status, next: nat, main: nat, folder: Folder)
    requires at <= |data|
    ensures scan == Ok <==> Syntax(data, at).Some? && ScanOk(Syntax(data, at).value.value)
    ensures scan == Ok ==> Syntax(data, at).value.next == next && (res == Ok <==> ItemOk(Syntax(data, at).value.value))
    ensures scan == Ok && res == Ok ==> Syntax(data, at) == Some(At(folder, next)) && folder.main == main < |folder.coders|
  {
    hide Syntax, ScanOk, ItemOk;
    var sd := new SzData(data);
    sd.at := at;
    var n, packs;
    scan, main, n, packs := ScanFolder(sd);
    next, res, folder := sd.at, ErrorArchive, Folder([], [], [], 0);
    if scan == Ok {
      FolderIsItsSlice(data, at);
      MainExists(data, at);
      var slice := new SzData(data[at..next]);
      res, folder := GetNextFolderItem(slice);
      assert res == Ok ==> slice.at == |slice.data|;
    }
  }
}
