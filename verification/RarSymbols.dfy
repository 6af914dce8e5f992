/** Reading one symbol: through the lookup table where enough bits are buffered, else down the tree. */
module RarSymbols {
  import opened Options
  import opened Bits
  import opened LowBits
  import opened CanonicalCode
  import opened RarHuffman

  /** The bits of a byte string, most significant first. */
  function BitsOf(data: seq<Byte>): (r: seq<bool>)
    ensures |r| == 8 * |data|
  {
    if data == [] then [] else Word(data[0], 8) + BitsOf(data[1..])
  }

  /** Shifting a byte into a 64-bit buffer keeps the buffered bits as long as they fit. */
  lemma ShiftedIn(bits: nat, available: nat, data: seq<Byte>)
    requires available + 8 <= 64 && data != []
    ensures Word((bits * 256 + data[0]) % Pow2(64), available + 8) + BitsOf(data[1..]) == Word(bits, available) + BitsOf(data)
  {
    hide Pow2, Word;
    Pow2Eight();
    WordAppend(bits, data[0], available, 8);
    var c := bits * 256 + data[0];
    WordOfMod(c, 64, available + 8);
    Associate(Word(bits, available), Word(data[0], 8), BitsOf(data[1..]));
  }

  /** The top `n` of the buffered bits, as a number, and what remains. */
  lemma Taken(bits: nat, available: nat, n: nat, tail: seq<bool>)
    requires n <= available
    ensures var r := (bits / Pow2(available - n)) % Pow2(n);
            r < Pow2(n) && Word(r, n) == (Word(bits, available) + tail)[..n]
    ensures Word(bits, available - n) + tail == (Word(bits, available) + tail)[n..]
  {
    hide Pow2, Word;
    var left := available - n;
    assert n + left == available;
    WordPrefix(bits, n, left);
    WordSuffix(bits, n, left);
    WordMod(bits / Pow2(left), n);
  }

  // ---------------------------------------------------------------- the reference: bit by bit

  datatype Read = Symbol(value: int, rest: seq<bool>) | Failed(rest: seq<bool>)

  /** Walks the tree from `node`, one bit of the stream at a time. */
  function TreeRead(tree: seq<Node>, node: int, stream: seq<bool>): Read
    decreases |stream|
  {
    if node < 0 || node >= |tree| then Failed(stream)
    else if IsLeaf(tree[node]) then Symbol(tree[node].zero, stream)
    else if stream == [] then Failed([])
    else if Branch(tree[node], stream[0]) < 0 then Failed(stream[1..])
    else TreeRead(tree, Branch(tree[node], stream[0]), stream[1..])
  }

  lemma {:induction false} ReadWalk(tree: seq<Node>, k: int, w: seq<bool>, rest: seq<bool>)
    requires Walk(tree, k, w) >= 0
    ensures TreeRead(tree, k, w + rest) == TreeRead(tree, Walk(tree, k, w), rest)
    decreases |w|
  {
    if w == [] {
      assert w + rest == rest;
    } else {
      ReadWalk(tree, Branch(tree[k], w[0]), w[1..], rest);
      assert (w + rest)[1..] == w[1..] + rest;
    }
  }

  lemma {:induction false} ReadFindsLeaf(tree: seq<Node>, k: int, stream: seq<bool>) returns (w: seq<bool>)
    requires TreeRead(tree, k, stream).Symbol?
    ensures stream == w + TreeRead(tree, k, stream).rest
    ensures var c := Walk(tree, k, w);
            0 <= c < |tree| && IsLeaf(tree[c]) && tree[c].zero == TreeRead(tree, k, stream).value
    decreases |stream|
  {
    if IsLeaf(tree[k]) {
      w := [];
    } else {
      w := ReadFindsLeaf(tree, Branch(tree[k], stream[0]), stream[1..]);
      w := [stream[0]] + w;
      assert w[1..] + TreeRead(tree, k, stream).rest == stream[1..];
    }
  }

  /** Reading a symbol off the tree recognises exactly the canonical code words: symbol `s` is returned exactly
      when the stream starts with its word, and then exactly that word is consumed. */
  lemma ReadIsCanonical(lens: seq<nat>, tree: seq<Node>, paths: seq<seq<bool>>, codes: map<seq<bool>, nat>,
                        stream: seq<bool>, s: nat)
    requires TreeOk(tree, paths, codes) && Canonical(lens, codes) && Coded(lens, s)
    ensures WordOf(lens, s) <= stream ==> TreeRead(tree, 0, stream) == Symbol(s, stream[lens[s]..])
    ensures TreeRead(tree, 0, stream).Symbol? && TreeRead(tree, 0, stream).value == s ==> WordOf(lens, s) <= stream
  {
    if WordOf(lens, s) <= stream {
      WordIsRead(tree, paths, codes, stream, WordOf(lens, s));
    }
    if TreeRead(tree, 0, stream).Symbol? {
      var w := ReadIsWord(tree, paths, codes, stream);
    }
  }

  /** No symbol is returned exactly when the stream starts with no code word. */
  lemma FailureIsCanonical(lens: seq<nat>, tree: seq<Node>, paths: seq<seq<bool>>, codes: map<seq<bool>, nat>, stream: seq<bool>)
    requires TreeOk(tree, paths, codes) && Canonical(lens, codes)
    ensures TreeRead(tree, 0, stream).Failed? <==>
              forall s :: 0 <= s < |lens| && Coded(lens, s) ==> !(WordOf(lens, s) <= stream)
  {
    if TreeRead(tree, 0, stream).Symbol? {
      var w := ReadIsWord(tree, paths, codes, stream);
      assert Coded(lens, codes[w]) && WordOf(lens, codes[w]) == w;
    } else {
      forall s | 0 <= s < |lens| && Coded(lens, s) ensures !(WordOf(lens, s) <= stream) {
        ReadIsCanonical(lens, tree, paths, codes, stream, s);
      }
    }
  }

  lemma WordIsRead(tree: seq<Node>, paths: seq<seq<bool>>, codes: map<seq<bool>, nat>, stream: seq<bool>, w: seq<bool>)
    requires TreeOk(tree, paths, codes) && w in codes && w <= stream
    ensures TreeRead(tree, 0, stream) == Symbol(codes[w], stream[|w|..])
  {
    var c := Walk(tree, 0, w);
    WalkPath(tree, paths, codes, 0, w);
    assert NodeOk(tree, paths, codes, c) && paths[0] + w == w;
    assert stream == w + stream[|w|..];
    ReadWalk(tree, 0, w, stream[|w|..]);
  }

  lemma ReadIsWord(tree: seq<Node>, paths: seq<seq<bool>>, codes: map<seq<bool>, nat>, stream: seq<bool>) returns (w: seq<bool>)
    requires TreeOk(tree, paths, codes) && TreeRead(tree, 0, stream).Symbol?
    ensures w in codes && w <= stream && TreeRead(tree, 0, stream) == Symbol(codes[w], stream[|w|..])
  {
    w := ReadFindsLeaf(tree, 0, stream);
    var c := Walk(tree, 0, w);
    WalkPath(tree, paths, codes, 0, w);
    assert NodeOk(tree, paths, codes, c) && paths[0] + w == w;
  }

  /** A table entry stands for the walk over its key. */
  lemma {:induction false} LookupIsRead(tree: seq<Node>, node: int, key: seq<bool>, depth: nat, stream: seq<bool>)
    requires Lookup(tree, node, key, depth).Some? && key <= stream
    ensures var e := Lookup(tree, node, key, depth).value;
            && depth <= e.length <= depth + |key| + 1
            && (e.length <= depth + |key| ==> TreeRead(tree, node, stream) == Symbol(e.value, stream[e.length - depth..]))
            && (e.length == depth + |key| + 1 ==>
                  0 <= e.value < |tree| && TreeRead(tree, node, stream) == TreeRead(tree, e.value, stream[|key|..]))
    decreases |key|
  {
    if IsLeaf(tree[node]) {
      assert stream[0..] == stream;
    } else if key == [] {
      assert stream[0..] == stream;
    } else {
      LookupIsRead(tree, Branch(tree[node], key[0]), key[1..], depth + 1, stream[1..]);
    }
  }

  // ---------------------------------------------------------------- the bit reader

  class BitReader {
    var bits: nat
    var available: nat
    var data: seq<Byte>
    var atEof: bool

    constructor (data: seq<Byte>)
      ensures Valid() && Remaining() == BitsOf(data)
    {
      bits, available, atEof := 0, 0, false;
      this.data := data;
    }

    ghost predicate Valid()
      reads this
    {
      available <= 64 && bits < Pow2(64)
    }

    /** The bits still to be read: the buffered ones, then those of the unread bytes. */
    ghost function Remaining(): seq<bool>
      reads this
    {
      Word(bits, available) + BitsOf(data)
    }

    /** Buffers as many whole bytes as fit, unless even that would not give `n` bits. */
    method Fill(n: nat) returns (ok: bool)
      requires Valid()
      modifies this
      ensures Valid() && Remaining() == old(Remaining())
      ensures ok ==> available >= n
      ensures !ok ==> n > old(available) + 8 * ((64 - old(available)) / 8) || n > |Remaining()|
    {
      hide Pow2, Word;
      var count := (64 - available) / 8;
      if |data| < count {
        count := |data|;
      }
      if n > available + 8 * count {
        atEof := true;
        return false;
      }
      for i := 0 to count
        invariant Valid() && Remaining() == old(Remaining())
        invariant available == old(available) + 8 * i && |data| == |old(data)| - i
      {
        LoadByte();
      }
      return true;
    }

    method LoadByte()
      requires Valid() && available + 8 <= 64 && data != []
      modifies this`bits, this`available, this`data
      ensures Valid() && Remaining() == old(Remaining())
      ensures available == old(available) + 8 && data == old(data)[1..]
    {
      hide Pow2, Word, BitsOf;
      ShiftedIn(bits, available, data);
      bits := (bits * 256 + data[0]) % Pow2(64);
      available := available + 8;
      data := data[1..];
    }

    /** Makes `n` bits available; fails exactly when fewer remain. */
    method Check(n: nat) returns (ok: bool)
      requires Valid() && n <= 57
      modifies this
      ensures Valid() && Remaining() == old(Remaining())
      ensures ok <==> n <= |Remaining()|
      ensures ok ==> available >= n
    {
      hide Pow2, Word;
      if n <= available {
        return true;
      }
      ok := Fill(n);
    }

    method TakeBits(n: nat) returns (r: nat)
      requires Valid() && n <= available
      modifies this`available
      ensures Valid() && available == old(available) - n
      ensures r < Pow2(n) && Word(r, n) == old(Remaining())[..n]
      ensures Remaining() == old(Remaining())[n..]
    {
      hide Pow2, Word;
      Taken(bits, available, n, BitsOf(data));
      available := available - n;
      r := (bits / Pow2(available)) % Pow2(n);
    }

    /** Unreads bits taken before: `held` were available then, and `n` of them stay taken. */
    method PutBack(k: nat, ghost held: nat, ghost n: nat)
      requires Valid() && available + k == held - n && held <= 64
      modifies this`available
      ensures Valid() && Remaining() == (Word(bits, held) + BitsOf(data))[n..]
    {
      hide Pow2, Word;
      UnreadBits(bits, held, n, BitsOf(data));
      available := available + k;
    }
  }

  // ---------------------------------------------------------------- one symbol

  /** How a read leaves the stream, and what it returns. */
  ghost predicate Returns(read: Read, r: int, rest: seq<bool>) {
    match read
    case Symbol(value, after) => r == value && rest == after
    case Failed(after) => r == -1 && rest == after
  }

  /** Walks down the tree from `node`. */
  method ReadFromTree(reader: BitReader, code: HuffmanCode, start: int) returns (r: int)
    requires reader.Valid() && code.Valid() && 0 <= start < |code.tree|
    modifies reader
    ensures reader.Valid() && Returns(TreeRead(code.tree, start, old(reader.Remaining())), r, reader.Remaining())
  {
    var node := start;
    while !IsLeaf(code.tree[node])
      invariant reader.Valid() && 0 <= node < |code.tree|
      invariant TreeRead(code.tree, node, reader.Remaining()) == TreeRead(code.tree, start, old(reader.Remaining()))
      decreases |reader.Remaining()|
    {
      hide HuffmanCode.Valid, Word, Pow2;
      ghost var before := reader.Remaining();
      var more := reader.Check(1);
      if !more {
        return -1;
      }
      var value := reader.TakeBits(1);
      var bit := value == 1;
      FirstBit(value, before);
      var next := Branch(code.tree[node], bit);
      if next < 0 {
        return -1;
      }
      BranchInTree(code.tree, code.paths, code.codes, node, bit);
      node := next;
    }
    return code.tree[node].zero;
  }

  lemma FirstBit(value: nat, stream: seq<bool>)
    requires value < Pow2(1) && |stream| >= 1 && Word(value, 1) == stream[..1]
    ensures stream[0] == (value == 1)
  {
    assert Word(value, 1) == Word(value / 2, 0) + [value % 2 == 1];
    assert stream[0] == stream[..1][0];
  }

  lemma BranchInTree(tree: seq<Node>, paths: seq<seq<bool>>, codes: map<seq<bool>, nat>, node: nat, bit: bool)
    requires TreeOk(tree, paths, codes) && node < |tree| && !IsLeaf(tree[node])
    ensures Branch(tree[node], bit) < |tree|
  {
    assert NodeOk(tree, paths, codes, node);
  }

  lemma RootExists(code: HuffmanCode)
    requires code.Valid()
    ensures |code.tree| > 0
  {
  }

  lemma UnreadBits(bits: nat, held: nat, n: nat, tail: seq<bool>)
    requires n <= held
    ensures (Word(bits, held) + tail)[n..] == Word(bits, held - n) + tail
  {
    WordSuffix(bits, n, held - n);
    assert n + (held - n) == held;
  }

  /** A key behind the first missing branch, whose table entry has not been filled. */
  ghost predicate Unfilled(tree: seq<Node>, tableSize: nat, rest: seq<bool>) {
    |rest| >= tableSize && Gap(tree, tableSize, Value(rest[..tableSize]))
  }

  lemma TableEntry(code: HuffmanCode, bits: nat, rest: seq<bool>)
    requires code.Flattened() && bits < Pow2(code.tableSize) && |rest| >= code.tableSize
    requires Word(bits, code.tableSize) == rest[..code.tableSize]
    ensures bits < code.table.Length
    ensures Unfilled(code.tree, code.tableSize, rest) ==> code.table[bits] == Entry(0, 0)
    ensures !Unfilled(code.tree, code.tableSize, rest) ==>
              Lookup(code.tree, 0, Word(bits, code.tableSize), 0) == Some(code.table[bits])
  {
    hide Word, Pow2, Lookup, Gap;
    ValueOfWord(bits, code.tableSize);
    assert code.table[..][bits] == code.table[bits];
  }

  lemma NoGap(tree: seq<Node>, m: nat, k: nat)
    requires Complete(tree, 0, m, 0) && k < Pow2(m)
    ensures !Gap(tree, m, k)
  {
    hide Word, Pow2, Lookup;
    forall j | 0 <= j <= k ensures Lookup(tree, 0, Word(j, m), 0) != None {
      assert |Word(j, m)| == m;
    }
  }

  /** The table look-up of a symbol read: either the symbol, or the node where the walk has to go on. Entries that have
      not been filled look like a symbol 0 of no bits. */
  method ReadFromTable(reader: BitReader, code: HuffmanCode) returns (found: bool, value: int)
    requires reader.Valid() && code.Flattened() && code.tableSize <= reader.available
    modifies reader
    ensures reader.Valid()
    ensures Unfilled(code.tree, code.tableSize, old(reader.Remaining())) ==>
              found && value == 0 && reader.Remaining() == old(reader.Remaining())
    ensures !Unfilled(code.tree, code.tableSize, old(reader.Remaining())) ==>
              && (found ==> Returns(TreeRead(code.tree, 0, old(reader.Remaining())), value, reader.Remaining()))
              && (!found ==> 0 <= value < |code.tree| &&
                             TreeRead(code.tree, 0, old(reader.Remaining())) == TreeRead(code.tree, value, reader.Remaining()))
  {
    ghost var before := reader.Remaining();
    ghost var held := reader.available;
    hide HuffmanCode.Valid, Word, Pow2, Lookup, TreeRead, Gap, Unfilled;
    var bits := reader.TakeBits(code.tableSize);
    TableEntry(code, bits, before);
    var length := code.table[bits].length;
    value := code.table[bits].value;
    if !Unfilled(code.tree, code.tableSize, before) {
      LookupIsRead(code.tree, 0, Word(bits, code.tableSize), 0, before);
    }
    if length < 0 {
      return true, -1;
    }
    if length <= code.tableSize {
      reader.PutBack(code.tableSize - length, held, length);
      return true, value;
    }
    return false, value;
  }

  /** Reads one symbol. The first call makes the table; when that fails, nothing is read. Otherwise, for every code and
      however many bits are buffered, the result and the bits consumed are those of the walk down the tree from the root,
      except that a table left by a failure yields symbol 0, without consuming anything, for all keys from the first one
      on that leads to a missing branch. */
  method ReadNextSymbol(reader: BitReader, code: HuffmanCode) returns (r: int)
    requires reader.Valid() && code.Valid() && (code.table == null || code.Flattened())
    modifies reader, code`table, code`tableSize
    ensures reader.Valid() && code.Valid() && code.tree == old(code.tree) && code.Flattened()
    ensures old(code.table) == null && !Complete(code.tree, 0, code.tableSize, 0) ==>
              r == -1 && reader.Remaining() == old(reader.Remaining())
    ensures old(code.table) != null || Complete(code.tree, 0, code.tableSize, 0) ==>
              if code.tableSize <= old(reader.available) && Unfilled(code.tree, code.tableSize, old(reader.Remaining()))
              then r == 0 && reader.Remaining() == old(reader.Remaining())
              else Returns(TreeRead(code.tree, 0, old(reader.Remaining())), r, reader.Remaining())
  {
    hide HuffmanCode.Valid, Word, Pow2, Complete, TreeRead, Flat, Unfilled;
    RootExists(code);
    if code.table == null {
      var made := code.MakeTable();
      if !made {
        return -1;
      }
    }
    var node := 0;
    if code.tableSize <= reader.available {
      var found, value := ReadFromTable(reader, code);
      if found {
        return value;
      }
      node := value;
    }
    r := ReadFromTree(reader, code, node);
  }

  /** With a code whose table can be made every call, the first or a later one, is the walk. */
  lemma CompleteIsFilled(tree: seq<Node>, tableSize: nat, rest: seq<bool>)
    requires Complete(tree, 0, tableSize, 0)
    ensures !Unfilled(tree, tableSize, rest)
  {
    hide Complete, Gap;
    if |rest| >= tableSize {
      ValueBound(rest[..tableSize]);
      NoGap(tree, tableSize, Value(rest[..tableSize]));
    }
  }

  /** The code with the words 0 and 10, as the tree holds it. */
  const TWO_WORDS: seq<Node> := [Node(1, 2), Node(0, 0), Node(3, -2), Node(1, 1)]

  /** After the table could not be made for this code, the bits 11 yield symbol 0 again and again, where the walk fails. */
  lemma UnfilledInput(rest: seq<bool>)
    requires |rest| >= 2 && rest[0] && rest[1]
    ensures Unfilled(TWO_WORDS, 2, rest) && TreeRead(TWO_WORDS, 0, rest).Failed?
  {
    TwoOnes(rest[..2]);
    NoThirdWord(rest[1..]);
    hide Lookup, Word, Value;
    assert TreeRead(TWO_WORDS, 0, rest) == TreeRead(TWO_WORDS, 2, rest[1..]);
  }

  lemma NoThirdWord(rest: seq<bool>)
    requires rest != [] && rest[0]
    ensures TreeRead(TWO_WORDS, 2, rest).Failed?
  {
  }

  lemma TwoOnes(w: seq<bool>)
    requires |w| == 2 && w[0] && w[1]
    ensures Word(3, 2) == w && Value(w) == 3 && Lookup(TWO_WORDS, 0, w, 0) == None
  {
    assert w == [true, true];
    assert Word(1, 1) == [] + [true] == [true];
    assert Pow2(2) == 4;
    ValueOfWord(3, 2);
    assert w[1..] == [true] && [true][1..] == [];
  }
}
