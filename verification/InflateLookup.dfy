/** Reading one symbol with the table and the overflow nodes, however many bits are at hand. */
module InflateLookup {
  import opened Bits
  import opened LowBits
  import opened CanonicalCode
  import opened InflateTree
  import opened InflateCapacity
  import opened DeflateCode
  import opened InflateInput

  datatype Status = Eos | NotDone | Error

  /** The tree holds the canonical code of the lengths `lens`. */
  ghost predicate TreeFor(nodes: seq<TNode>, pairs: Pairs, codes: Codes, lens: seq<nat>) {
    TreeOk(nodes, pairs, codes) && NoStray(pairs, codes, []) && Fits(lens) && CodesFor(codes, lens, |lens|)
  }

  /** The bits `x` do not contain a whole code word. */
  ghost predicate NoSymbol(lens: seq<nat>, x: seq<bool>) {
    forall s :: 0 <= s < |lens| && Coded(lens, s) ==> !(WordOf(lens, s) <= x)
  }

  lemma NoSymbolToRead(lens: seq<nat>, x: seq<bool>)
    requires NoSymbol(lens, x)
    ensures !Read(lens, x).Symbol?
  {
    hide WordOf;
  }

  // ---------------------------------------------------------------- what nodes mean for the code

  lemma NoWordCompatible(codes: Codes, lens: seq<nat>, x: seq<bool>)
    requires CodesFor(codes, lens, |lens|) && Insertable(codes, x)
    ensures Hopeless(lens, x)
  {
    hide WordOf, Coded;
    forall s | 0 <= s < |lens| && Coded(lens, s) ensures !Compatible(WordOf(lens, s), x) {
      assert WordOf(lens, s) in codes;
    }
  }

  lemma WordOfSymbol(codes: Codes, lens: seq<nat>, w: seq<bool>)
    requires CodesFor(codes, lens, |lens|) && w in codes
    ensures Coded(lens, codes[w]) && WordOf(lens, codes[w]) == w && |w| == lens[codes[w]]
  {
    hide WordOf;
  }

  /** How a table entry is read. */
  lemma KeyMeaning(nodes: seq<TNode>, pairs: Pairs, codes: Codes, lens: seq<nat>, key: nat)
    requires TreeFor(nodes, pairs, codes, lens) && key < FAST_SIZE
    ensures |nodes| >= FAST_SIZE
    ensures var n, u := nodes[key], LowWord(key, FAST_BITS);
            && (n.isValue ==> Coded(lens, n.value) && WordOf(lens, n.value) <= u && n.length == lens[n.value])
            && (!n.isValue && n.length == 0 ==> Hopeless(lens, u))
            && (!n.isValue && n.length != 0 ==> u in pairs && pairs[u] == n.value && n.length == FAST_BITS + 1)
  {
    hide WordOf, LowWord, Fits, CodesFor, Coded, Hopeless, PairsOk, TreeOk, NoStray;
    EntryMeaning(nodes, pairs, codes, key);
    var n, u := nodes[key], LowWord(key, FAST_BITS);
    if n.isValue {
      var w :| w in codes && w <= u && n == TNode(codes[w], true, |w|);
      WordOfSymbol(codes, lens, w);
    } else if n.length == 0 {
      NoWordCompatible(codes, lens, u);
    }
  }

  lemma EntryMeaning(nodes: seq<TNode>, pairs: Pairs, codes: Codes, key: nat)
    requires TreeOk(nodes, pairs, codes) && key < FAST_SIZE
    ensures |nodes| >= FAST_SIZE
    ensures var n, u := nodes[key], LowWord(key, FAST_BITS);
            && (n.isValue ==> exists w :: w in codes && w <= u && n == TNode(codes[w], true, |w|))
            && (!n.isValue && n.length == 0 ==> Insertable(codes, u))
            && (!n.isValue && n.length != 0 ==> u in pairs && pairs[u] == n.value && n.length == FAST_BITS + 1)
  {
    hide LowWord, PairsOk;
    var n, u := nodes[key], LowWord(key, FAST_BITS);
    assert RootOk(n, u, pairs, codes);
    if !n.isValue && n.length == 0 {
      forall x | x in codes ensures !(x <= u) && !(u <= x) {
        LongerTake(u, x);
      }
    }
  }

  /** How an overflow node is read. */
  lemma SlotMeaning(nodes: seq<TNode>, pairs: Pairs, codes: Codes, lens: seq<nat>, x: seq<bool>, k: nat)
    requires TreeFor(nodes, pairs, codes, lens) && |x| > FAST_BITS && NodeAt(pairs, x, k)
    ensures k < |nodes|
    ensures var n := nodes[k];
            && (n.isValue ==> Coded(lens, n.value) && WordOf(lens, n.value) == x)
            && (!n.isValue && n.value != 0 ==> x in pairs && pairs[x] == n.value)
            && (!n.isValue && n.value == 0 ==> Hopeless(lens, x))
  {
    hide WordOf, LowWord, Fits, CodesFor, Coded, Hopeless, TreeOk, NodeAt, NoStray, Insertable;
    NodeInRange(nodes, pairs, codes, x, k);
    OnTheWay(pairs, codes, lens, x, k);
    StrayFree(pairs, codes, x);
    PairsMarked(nodes, pairs, codes);
    var n := nodes[k];
    if n.isValue {
      WordOfSymbol(codes, lens, x);
    } else if n.value == 0 {
      UntouchedIsInsertable(nodes, pairs, codes, x);
      NoWordCompatible(codes, lens, x);
    }
  }

  lemma PairsMarked(nodes: seq<TNode>, pairs: Pairs, codes: Codes)
    requires TreeOk(nodes, pairs, codes)
    ensures forall x :: x in pairs ==> |x| >= FAST_BITS && pairs[x] != 0 && pairs[x] % 2 == 0
  {
    hide RootsOk, Linked, SlotOk;
  }

  lemma StrayFree(pairs: Pairs, codes: Codes, x: seq<bool>)
    requires NoStray(pairs, codes, [])
    ensures NoStray(pairs, codes, x)
  {
  }

  /** On the way down no code word has ended yet. */
  lemma OnTheWay(pairs: Pairs, codes: Codes, lens: seq<nat>, x: seq<bool>, k: nat)
    requires NoStray(pairs, codes, []) && Fits(lens) && CodesFor(codes, lens, |lens|)
    requires |x| > FAST_BITS && NodeAt(pairs, x, k)
    ensures forall y :: y in codes && y <= x ==> y == x
  {
    hide WordOf, Fits, Coded;
    var p := x[..|x| - 1];
    NoneInside(pairs, codes, lens, p);
    forall y | y in codes && y <= x ensures y == x {
    }
  }

  lemma NoneInside(pairs: Pairs, codes: Codes, lens: seq<nat>, p: seq<bool>)
    requires NoStray(pairs, codes, []) && Fits(lens) && CodesFor(codes, lens, |lens|) && p in pairs
    ensures (forall y :: y in codes ==> !(y <= p)) && NoSymbol(lens, p) && |p| < MAX_LENGTH
  {
    hide WordOf, Fits;
    var w :| w in codes && ProperPrefix(p, w);
    forall y | y in codes ensures !(y <= p) {
      if y <= p {
        PrefixFree(lens, codes[y], codes[w]);
        assert false;
      }
    }
  }

  // ---------------------------------------------------------------- keys padded with zeros

  /** The table key is made of the available bits; missing ones are zero. */
  lemma KeyBits(bits: nat, available: nat)
    requires bits < Pow2(available)
    ensures LowWord(bits % FAST_SIZE, FAST_BITS) ==
              if available >= FAST_BITS then LowWord(bits, available)[..FAST_BITS]
              else LowWord(bits, available) + Zeros(FAST_BITS - available)
  {
    hide LowWord, Pow2;
    Pow2Ten();
    if available >= FAST_BITS {
      LowWordSplit(bits, FAST_BITS, available - FAST_BITS);
      assert FAST_BITS + (available - FAST_BITS) == available;
    } else {
      LowWordPadded(bits, available, FAST_BITS);
      Pow2Grows(available, FAST_BITS);
    }
  }

  /** An empty entry means that the available bits cannot be continued to a code word, even if there are few. */
  lemma EmptyKey(nodes: seq<TNode>, pairs: Pairs, codes: Codes, lens: seq<nat>, bits: nat, available: nat)
    requires TreeFor(nodes, pairs, codes, lens) && bits < Pow2(available)
    ensures |nodes| >= FAST_SIZE
    ensures !nodes[bits % FAST_SIZE].isValue && nodes[bits % FAST_SIZE].length == 0 ==>
              Hopeless(lens, LowWord(bits, available))
  {
    hide WordOf, LowWord, Fits, CodesFor, Hopeless, TreeOk, NoStray, Pow2;
    KeyMeaning(nodes, pairs, codes, lens, bits % FAST_SIZE);
    KeyBits(bits, available);
    var s := LowWord(bits, available);
    if Hopeless(lens, LowWord(bits % FAST_SIZE, FAST_BITS)) {
      if available >= FAST_BITS {
        StillHopeless(lens, s[..FAST_BITS], s[FAST_BITS..]);
        assert s[..FAST_BITS] + s[FAST_BITS..] == s;
      } else {
        ZerosComeFirst(lens, s, FAST_BITS - available);
      }
    }
  }

  /** The length in the entry is not more than what any continuation of the available bits needs. */
  lemma LengthIsNeeded(nodes: seq<TNode>, pairs: Pairs, codes: Codes, lens: seq<nat>, bits: nat, available: nat, s: nat)
    requires TreeFor(nodes, pairs, codes, lens) && bits < Pow2(available) && available < FAST_BITS
    requires Coded(lens, s) && Compatible(WordOf(lens, s), LowWord(bits, available))
    ensures |nodes| >= FAST_SIZE && nodes[bits % FAST_SIZE].length <= lens[s]
  {
    hide WordOf, LowWord, Fits, CodesFor, Hopeless, TreeOk, NoStray, Pow2, Coded;
    var key := bits % FAST_SIZE;
    KeyMeaning(nodes, pairs, codes, lens, key);
    KeyBits(bits, available);
    if nodes[key].isValue {
      ZerosAreShortest(lens, LowWord(bits, available), FAST_BITS - available, nodes[key].value, s);
    } else if nodes[key].length != 0 {
      var t := SymbolBelow(pairs, codes, lens, LowWord(key, FAST_BITS));
      ZerosAreShortest(lens, LowWord(bits, available), FAST_BITS - available, t, s);
    }
  }

  lemma SymbolBelow(pairs: Pairs, codes: Codes, lens: seq<nat>, u: seq<bool>) returns (t: nat)
    requires NoStray(pairs, codes, []) && CodesFor(codes, lens, |lens|) && u in pairs
    ensures Coded(lens, t) && Compatible(WordOf(lens, t), u) && lens[t] > |u|
  {
    hide WordOf, Coded;
    var w :| w in codes && ProperPrefix(u, w);
    WordOfSymbol(codes, lens, w);
    t := codes[w];
  }

  /** When the bits demanded by an entry are not there, no code word is complete. */
  lemma DemandIsSafe(nodes: seq<TNode>, pairs: Pairs, codes: Codes, lens: seq<nat>, bits: nat, available: nat, x: seq<bool>)
    requires TreeFor(nodes, pairs, codes, lens) && bits < Pow2(available) && available < FAST_BITS
    requires LowWord(bits, available) <= x
    ensures |nodes| >= FAST_SIZE && (|x| < nodes[bits % FAST_SIZE].length ==> NoSymbol(lens, x))
  {
    hide WordOf, LowWord, Fits, CodesFor, Hopeless, TreeOk, NoStray, Pow2, Coded;
    KeyMeaning(nodes, pairs, codes, lens, bits % FAST_SIZE);
    forall s | 0 <= s < |lens| && Coded(lens, s) && WordOf(lens, s) <= x
      ensures |x| >= nodes[bits % FAST_SIZE].length
    {
      BothPrefixes(WordOf(lens, s), LowWord(bits, available), x);
      LengthIsNeeded(nodes, pairs, codes, lens, bits, available, s);
    }
  }

  lemma BothPrefixes(w: seq<bool>, y: seq<bool>, x: seq<bool>)
    requires w <= x && y <= x
    ensures Compatible(w, y)
  {
    if |w| <= |y| {
      assert w == x[..|w|] == y[..|w|];
    } else {
      assert y == x[..|y|] == w[..|y|];
    }
  }

  // ---------------------------------------------------------------- the lookup

  /** The first ten bits: fetches as many bits as the table asks for. */
  method FillKey(reader: Reader, nodes: seq<TNode>, ghost pairs: Pairs, ghost codes: Codes, ghost lens: seq<nat>,
                 notFast: bool) returns (ok: bool, key: nat)
    requires reader.Valid() && TreeFor(nodes, pairs, codes, lens) && (notFast || reader.available >= MAX_LENGTH)
    modifies reader`bits, reader`available, reader`at, reader`unread
    ensures reader.Valid() && |nodes| >= FAST_SIZE
    ensures !notFast ==> ok && reader.available == old(reader.available)
    ensures ok ==> key == reader.bits % FAST_SIZE &&
                   (reader.available >= FAST_BITS || reader.available >= nodes[key].length)
    ensures !ok ==> reader.at == |reader.data| && NoSymbol(lens, LowWord(reader.bits, reader.available))
  {
    hide TreeFor, LowWord, Pow2, LowBitsOf, NoSymbol;
    TableSize(nodes, pairs, codes, lens);
    key := reader.bits % FAST_SIZE;
    while notFast && reader.available < FAST_BITS && reader.available < nodes[key].length
      invariant reader.Valid() && key == reader.bits % FAST_SIZE
      invariant !notFast ==> reader.available == old(reader.available)
      decreases FAST_BITS - reader.available
    {
      ghost var bits, available := reader.bits, reader.available;
      LengthIsSmall(nodes, pairs, codes, lens, key);
      var got := reader.Ensure(nodes[key].length);
      if !got {
        DemandIsSafe(nodes, pairs, codes, lens, bits, available, LowWord(reader.bits, reader.available));
        return false, key;
      }
      key := reader.bits % FAST_SIZE;
    }
    return true, key;
  }

  lemma TableSize(nodes: seq<TNode>, pairs: Pairs, codes: Codes, lens: seq<nat>)
    requires TreeFor(nodes, pairs, codes, lens)
    ensures |nodes| >= FAST_SIZE
  {
  }

  lemma LengthIsSmall(nodes: seq<TNode>, pairs: Pairs, codes: Codes, lens: seq<nat>, key: nat)
    requires TreeFor(nodes, pairs, codes, lens) && key < FAST_SIZE
    ensures |nodes| >= FAST_SIZE && nodes[key].length <= MAX_LENGTH
  {
    hide TreeFor, WordOf, LowWord;
    KeyMeaning(nodes, pairs, codes, lens, key);
  }

  /** Where a symbol is being read: at its start, or below the table on the path of the bits read so far. */
  ghost predicate InTree(pairs: Pairs, held: seq<bool>, treeIdx: nat) {
    if treeIdx == 0 then held == [] else held in pairs && pairs[held] == treeIdx
  }

  /** Looks up the first bits of a symbol: it is complete, it continues below the table (value -1), or it is invalid. */
  method RootLookup(reader: Reader, nodes: seq<TNode>, ghost pairs: Pairs, ghost codes: Codes, ghost lens: seq<nat>,
                    notFast: bool) returns (res: Status, value: int, treeIdx: nat, ghost held: seq<bool>)
    requires reader.Valid() && TreeFor(nodes, pairs, codes, lens) && (notFast || reader.available >= MAX_LENGTH)
    modifies reader`bits, reader`available, reader`at, reader`unread, reader`ahead
    ensures reader.Valid() && old(reader.ahead) == held + reader.ahead
    ensures res == Eos && value >= 0 ==> Coded(lens, value) && held == WordOf(lens, value) && treeIdx == 0
    ensures res == Eos && value < 0 ==> value == -1 && treeIdx != 0 && InTree(pairs, held, treeIdx)
    ensures !notFast ==> res != NotDone && (res == Eos ==> reader.available + |held| == old(reader.available))
    ensures res == NotDone ==> value == -1 && treeIdx == 0 && held == [] && reader.at == |reader.data|
    ensures res == NotDone ==> NoSymbol(lens, LowWord(reader.bits, reader.available))
    ensures res == Error ==> Hopeless(lens, held + reader.ahead)
  {
    hide TreeFor, LowWord, Pow2, LowBitsOf, NoSymbol, WordOf, Hopeless;
    ghost var ahead := reader.ahead;
    value, treeIdx, held := -1, 0, [];
    var ok, key := FillKey(reader, nodes, pairs, codes, lens, notFast);
    if !ok {
      return NotDone, value, treeIdx, held;
    }
    KeyFound(nodes, pairs, codes, lens, reader.bits, reader.available, LowBitsOf(reader.unread));
    var n := nodes[key];
    if n.isValue {
      value := n.value;
      held := WordOf(lens, n.value);
      SplitPrefix(held, ahead);
      var v := reader.Take(n.length);
      return Eos, value, treeIdx, held;
    }
    if n.length == 0 {
      return Error, value, treeIdx, held;
    }
    held := ahead[..FAST_BITS];
    SplitPrefix(held, ahead);
    PairsNonzero(nodes, pairs, codes, lens);
    var v := reader.Take(FAST_BITS);
    treeIdx := n.value;
    return Eos, value, treeIdx, held;
  }

  lemma SplitPrefix(w: seq<bool>, x: seq<bool>)
    requires w <= x
    ensures x == w + x[|w|..]
  {
  }

  lemma PairsNonzero(nodes: seq<TNode>, pairs: Pairs, codes: Codes, lens: seq<nat>)
    requires TreeFor(nodes, pairs, codes, lens)
    ensures forall x :: x in pairs ==> |x| >= FAST_BITS && pairs[x] != 0 && pairs[x] % 2 == 0
  {
    hide TreeOk, NoStray, Fits, CodesFor;
    PairsMarked(nodes, pairs, codes);
  }

  /** What the entry says about the stream, once enough bits are available. */
  lemma KeyFound(nodes: seq<TNode>, pairs: Pairs, codes: Codes, lens: seq<nat>, bits: nat, available: nat, more: seq<bool>)
    requires TreeFor(nodes, pairs, codes, lens) && bits < Pow2(available) && |nodes| >= FAST_SIZE
    requires available >= FAST_BITS || available >= nodes[bits % FAST_SIZE].length
    ensures var n, ahead := nodes[bits % FAST_SIZE], LowWord(bits, available) + more;
            && (n.isValue ==> Coded(lens, n.value) && n.length == lens[n.value] <= available && WordOf(lens, n.value) <= ahead)
            && (!n.isValue && n.length == 0 ==> Hopeless(lens, ahead))
            && (!n.isValue && n.length != 0 ==>
                  available >= FAST_BITS && ahead[..FAST_BITS] in pairs && pairs[ahead[..FAST_BITS]] == n.value)
  {
    hide TreeFor, LowWord, Pow2, WordOf, Hopeless, Coded;
    var key, x := bits % FAST_SIZE, LowWord(bits, available);
    KeyMeaning(nodes, pairs, codes, lens, key);
    KeyBits(bits, available);
    EmptyKey(nodes, pairs, codes, lens, bits, available);
    CodedIsShort(lens);
    if nodes[key].isValue {
      if available < FAST_BITS {
        PrefixOfPadded(WordOf(lens, nodes[key].value), x, Zeros(FAST_BITS - available), more);
      }
    } else if nodes[key].length == 0 {
      StillHopeless(lens, x, more);
    } else {
      assert (x + more)[..FAST_BITS] == x[..FAST_BITS];
    }
  }

  lemma CodedIsShort(lens: seq<nat>)
    ensures forall s: nat {:trigger Coded(lens, s)} :: Coded(lens, s) ==> s < |lens| && 1 <= lens[s] <= MAX_LENGTH
  {
  }

  lemma PrefixOfPadded(w: seq<bool>, x: seq<bool>, z: seq<bool>, more: seq<bool>)
    requires w <= x + z
    ensures |w| <= |x| ==> w <= x + more
  {
    if |w| <= |x| {
      assert w == (x + z)[..|w|] == x[..|w|];
    }
  }

  /** Goes down from the table bit by bit until the symbol is complete. */
  method Descend(reader: Reader, nodes: seq<TNode>, ghost pairs: Pairs, ghost codes: Codes, ghost lens: seq<nat>,
                 notFast: bool, idx: nat, ghost path: seq<bool>)
    returns (res: Status, value: int, treeIdx: nat, ghost held: seq<bool>)
    requires reader.Valid() && TreeFor(nodes, pairs, codes, lens) && idx != 0 && InTree(pairs, path, idx)
    requires notFast || reader.available + |path| >= MAX_LENGTH
    modifies reader`bits, reader`available, reader`at, reader`unread, reader`ahead
    ensures reader.Valid() && path + old(reader.ahead) == held + reader.ahead
    ensures res == Eos ==> value >= 0 && Coded(lens, value) && held == WordOf(lens, value) && treeIdx == 0
    ensures !notFast ==> res != NotDone && (res == Eos ==> reader.available + |held| == old(reader.available) + |path|)
    ensures res == NotDone ==> value == -1 && treeIdx != 0 && InTree(pairs, held, treeIdx) && reader.at == |reader.data|
    ensures res == NotDone ==> NoSymbol(lens, held + LowWord(reader.bits, reader.available))
    ensures res == Error ==> Hopeless(lens, held + reader.ahead)
  {
    hide TreeFor, LowWord, Pow2, LowBitsOf, NoSymbol, WordOf, Hopeless;
    value, treeIdx, held := -1, idx, path;
    PairsNonzero(nodes, pairs, codes, lens);
    while true
      invariant reader.Valid() && value == -1 && treeIdx != 0 && InTree(pairs, held, treeIdx)
      invariant path + old(reader.ahead) == held + reader.ahead
      invariant !notFast ==> reader.available + |held| == old(reader.available) + |path|
      decreases MAX_LENGTH - |held|
    {
      PathIsShort(nodes, pairs, codes, lens, held);
      if notFast {
        var got := reader.Ensure(1);
        if !got {
          assert held + LowWord(reader.bits, reader.available) == held;
          return NotDone, value, treeIdx, held;
        }
      }
      var n;
      n, held := NextBit(reader, nodes, pairs, codes, lens, treeIdx, held);
      if n.isValue {
        return Eos, n.value, 0, held;
      } else if n.value != 0 {
        treeIdx := n.value;
      } else {
        StillHopeless(lens, held, reader.ahead);
        return Error, value, treeIdx, held;
      }
    }
  }

  /** One bit down from the pair of nodes at `treeIdx`. */
  method NextBit(reader: Reader, nodes: seq<TNode>, ghost pairs: Pairs, ghost codes: Codes, ghost lens: seq<nat>,
                 treeIdx: nat, ghost path: seq<bool>) returns (n: TNode, ghost held: seq<bool>)
    requires reader.Valid() && TreeFor(nodes, pairs, codes, lens) && reader.available >= 1
    requires path in pairs && pairs[path] == treeIdx && |path| >= FAST_BITS
    modifies reader`bits, reader`available, reader`ahead
    ensures reader.Valid() && path + old(reader.ahead) == held + reader.ahead
    ensures reader.available == old(reader.available) - 1 && |held| == |path| + 1
    ensures n.isValue ==> Coded(lens, n.value) && WordOf(lens, n.value) == held
    ensures !n.isValue && n.value != 0 ==> held in pairs && pairs[held] == n.value
    ensures !n.isValue && n.value == 0 ==> Hopeless(lens, held)
  {
    hide TreeFor, LowWord, Pow2, LowBitsOf, NoSymbol, WordOf, Hopeless, LowValue, Coded;
    ghost var ahead := reader.ahead;
    var b := reader.Take(1);
    OneBit(ahead);
    held := path + [ahead[0]];
    assert held + reader.ahead == path + ahead;
    NextNode(pairs, path, ahead[0], treeIdx);
    SlotMeaning(nodes, pairs, codes, lens, held, treeIdx + b);
    n := nodes[treeIdx + b];
  }

  lemma PathIsShort(nodes: seq<TNode>, pairs: Pairs, codes: Codes, lens: seq<nat>, p: seq<bool>)
    requires TreeFor(nodes, pairs, codes, lens) && p in pairs
    ensures |p| < MAX_LENGTH && NoSymbol(lens, p)
  {
    hide TreeOk, NoStray, Fits, CodesFor, NoSymbol, WordOf;
    NoneInside(pairs, codes, lens, p);
  }

  lemma OneBit(x: seq<bool>)
    requires |x| >= 1
    ensures LowValue(x[..1]) == Bit(x[0]) && x == [x[0]] + x[1..]
  {
    assert x[..1] == [x[0]];
    assert LowValue([x[0]][1..]) == 0;
  }

  lemma NextNode(pairs: Pairs, p: seq<bool>, b: bool, treeIdx: nat)
    requires p in pairs && pairs[p] == treeIdx && |p| >= FAST_BITS
    ensures NodeAt(pairs, p + [b], treeIdx + Bit(b))
  {
    assert (p + [b])[..|p|] == p;
  }

  /** Reads one symbol; a call that runs out of input leaves the position from which the next one goes on. */
  method GetValue(reader: Reader, tree: Tree, ghost lens: seq<nat>, notFast: bool, idx: nat, ghost path: seq<bool>)
    returns (res: Status, value: int, treeIdx: nat, ghost held: seq<bool>)
    requires reader.Valid() && TreeFor(tree.nodes, tree.pairs, tree.codes, lens) && InTree(tree.pairs, path, idx)
    requires notFast || reader.available + |path| >= MAX_LENGTH
    modifies reader`bits, reader`available, reader`at, reader`unread, reader`ahead
    ensures reader.Valid() && path + old(reader.ahead) == held + reader.ahead
    ensures res == Eos ==> value >= 0 && Coded(lens, value) && held == WordOf(lens, value) && treeIdx == 0
    ensures !notFast ==> res != NotDone && (res == Eos ==> reader.available + |held| == old(reader.available) + |path|)
    ensures res == NotDone ==> value == -1 && InTree(tree.pairs, held, treeIdx) && reader.at == |reader.data|
    ensures res == NotDone ==> NoSymbol(lens, held + LowWord(reader.bits, reader.available))
    ensures res == Error ==> Hopeless(lens, held + reader.ahead)
  {
    hide TreeFor, LowWord, Pow2, LowBitsOf, NoSymbol, WordOf, Hopeless, Coded;
    value, treeIdx, held := -1, idx, path;
    if idx == 0 {
      res, value, treeIdx, held := RootLookup(reader, tree.nodes, tree.pairs, tree.codes, lens, notFast);
      if res != Eos || value >= 0 {
        assert held == [] ==> held + LowWord(reader.bits, reader.available) == LowWord(reader.bits, reader.available);
        return;
      }
    }
    res, value, treeIdx, held := Descend(reader, tree.nodes, tree.pairs, tree.codes, lens, notFast, treeIdx, held);
  }
}
