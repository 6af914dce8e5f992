/** All folders of an archive: the scan that records where they are, and the second look at one of them. */
module SevenZipUnpack {
  import opened Options
  import opened LowBits
  import opened SevenZipNumbers
  import opened SevenZipFolders
  import SevenZipWriter
  import opened SevenZipArcIn

  const WORD: nat := 0x1_0000_0000

  /** The packed streams that a folder takes: those that no bond feeds. */
  function PackCount(f: Folder): int {
    Total(f.coders) + 1 - |f.coders|
  }

  /** It is the number of packed streams of the folder. */
  lemma PackCountIs(data: seq<Byte>, at: nat)
    requires Syntax(data, at).Some?
    ensures PackCount(Syntax(data, at).value.value) == |Syntax(data, at).value.value.packs|
  {
    hide Syntax, Total;
    SevenZipWriter.AcceptedIsFormed(data, at);
  }

  /** `n` folders follow each other from `at` on, and there are enough packed streams for them. */
  predicate Accepted(data: seq<Byte>, at: nat, n: nat, packs: int, streams: nat)
    requires at <= |data|
    decreases n
  {
    n == 0 ||
    (var s := Syntax(data, at);
     s.Some? && ScanOk(s.value.value) && s.value.next <= |data|
     && streams + |s.value.value.coders| < WORD && PackCount(s.value.value) <= packs
     && Accepted(data, s.value.next, n - 1, packs - PackCount(s.value.value), streams + |s.value.value.coders|))
  }

  /** What is recorded about the folder `fo`: its slice of the data, its main coder, and its shares of the streams. */
  ghost predicate Recorded(data: seq<Byte>, offsets: seq<nat>, startPack: seq<nat>, toSizes: seq<nat>, toMain: seq<nat>, fo: nat)
    requires fo + 1 < |offsets| && fo + 1 < |startPack| && fo + 1 < |toSizes| && fo < |toMain|
  {
    offsets[fo] <= |data| &&
    var s := Syntax(data, offsets[fo]);
    && s.Some? && ScanOk(s.value.value) && s.value.next == offsets[fo + 1] <= |data| && toMain[fo] == s.value.value.main
    && startPack[fo + 1] == startPack[fo] + PackCount(s.value.value)
    && toSizes[fo + 1] == toSizes[fo] + |s.value.value.coders|
  }

  class UnpackInfo {
    var data: seq<Byte>        // what the offsets count from
    var numFolders: nat
    var offsets: seq<nat>
    var startPack: seq<nat>
    var toSizes: seq<nat>
    var toMain: seq<nat>

    ghost predicate Lengths(n: nat)
      reads this
    {
      |offsets| == n + 1 && |startPack| == n + 1 && |toSizes| == n + 1 && |toMain| == n
    }

    ghost predicate Upto(n: nat)
      reads this
    {
      && Lengths(n) && offsets[0] == 0 && startPack[0] == 0 && toSizes[0] == 0
      && forall fo :: 0 <= fo < n ==> Recorded(data, offsets, startPack, toSizes, toMain, fo)
    }

    ghost predicate Valid()
      reads this
    {
      Upto(numFolders)
    }

    constructor ()
      ensures Valid() && numFolders == 0
    {
      data, numFolders, offsets, startPack, toSizes, toMain := [], 0, [0], [0], [0], [];
    }

    /** Scans all folders; accepts them exactly if they are well formed, within the limits, and fed by enough packed
        streams. */
    method ReadFolders(bytes: seq<Byte>, count: nat, numPackStreams: nat) returns (res: Status)
      modifies this
      ensures res == Ok <==> Accepted(bytes, 0, count, numPackStreams, 0)
      ensures res == Ok ==> Valid() && numFolders == count && data == bytes && startPack[count] <= numPackStreams
    {
      hide Accepted, Recorded, Syntax, ScanOk;
      data, numFolders, offsets, startPack, toSizes, toMain := bytes, count, [0], [0], [0], [];
      var sd := new SzData(bytes);
      for i := 0 to count
        invariant sd.Valid() && sd.data == bytes == data && numFolders == count && fresh(sd)
        invariant Upto(i) && offsets[i] == sd.at <= |bytes| && startPack[i] <= numPackStreams
        invariant Accepted(bytes, 0, count, numPackStreams, 0) <==>
                  Accepted(bytes, sd.at, count - i, numPackStreams - startPack[i], toSizes[i])
      {
        AcceptedNext(bytes, sd.at, count - i, numPackStreams - startPack[i], toSizes[i]);
        var main, numCoders, packs;
        res, main, numCoders, packs := ScanFolder(sd);
        if res != Ok {
          return;
        }
        if toSizes[i] + numCoders >= WORD {
          return ErrorUnsupported;
        }
        if packs > numPackStreams - startPack[i] {
          return ErrorArchive;
        }
        Record(i, main, numCoders, packs, sd.at);
      }
      res := Ok;
      AcceptedNone(bytes, sd.at, numPackStreams - startPack[count], toSizes[count]);
    }

    /** Records a folder that the scan has passed. */
    method Record(i: nat, main: nat, numCoders: nat, packs: nat, next: nat)
      requires Upto(i) && offsets[i] <= |data| && Syntax(data, offsets[i]).Some?
      requires var s := Syntax(data, offsets[i]).value;
               && ScanOk(s.value) && s.next == next <= |data| && s.value.main == main && |s.value.coders| == numCoders
               && packs == PackCount(s.value)
      modifies this`offsets, this`startPack, this`toSizes, this`toMain
      ensures Upto(i + 1) && offsets[i + 1] == next
      ensures startPack[i + 1] == old(startPack)[i] + packs && toSizes[i + 1] == old(toSizes)[i] + numCoders
    {
      hide Syntax, ScanOk, PackCount;
      offsets := offsets + [next];
      startPack := startPack + [startPack[i] + packs];
      toSizes := toSizes + [toSizes[i] + numCoders];
      toMain := toMain + [main];
      forall fo | 0 <= fo < i + 1 ensures Recorded(data, offsets, startPack, toSizes, toMain, fo) {
        if fo < i { assert Recorded(data, old(offsets), old(startPack), old(toSizes), old(toMain), fo); }
      }
    }

    /** Reads a recorded folder again, from its own slice. What it finds is what the scan had found: the checks that
        compare them do not fail, and the folder is refused only if it is beyond the limits of the decoder. */
    method DecodeFolder(fo: nat) returns (res: Status, same: bool, folder: Folder)
      requires Valid() && fo < numFolders
      ensures same && offsets[fo] <= |data| && Syntax(data, offsets[fo]).Some?
      ensures res == Ok <==> ItemOk(Syntax(data, offsets[fo]).value.value)
      ensures res == Ok ==> Syntax(data, offsets[fo]) == Some(At(folder, offsets[fo + 1])) && folder.main == toMain[fo]
    {
      hide Syntax, ScanOk, ItemOk, PackCount;
      assert Recorded(data, offsets, startPack, toSizes, toMain, fo);
      FolderIsItsSlice(data, offsets[fo]);
      var sd := new SzData(data[offsets[fo]..offsets[fo + 1]]);
      res, folder := GetNextFolderItem(sd);
      same := res != Ok || (sd.at == |sd.data| && folder.main == toMain[fo]);
    }
  }

  lemma AcceptedNext(data: seq<Byte>, at: nat, n: nat, packs: int, streams: nat)
    requires at <= |data| && n > 0
    ensures var s := Syntax(data, at);
            Accepted(data, at, n, packs, streams) <==>
              (s.Some? && ScanOk(s.value.value) && s.value.next <= |data|
               && streams + |s.value.value.coders| < WORD && PackCount(s.value.value) <= packs
               && Accepted(data, s.value.next, n - 1, packs - PackCount(s.value.value), streams + |s.value.value.coders|))
  {
    hide Syntax, ScanOk, PackCount;
  }

  lemma AcceptedNone(data: seq<Byte>, at: nat, packs: int, streams: nat)
    requires at <= |data|
    ensures Accepted(data, at, 0, packs, streams)
  {
  }
}
