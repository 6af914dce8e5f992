/** Branch converters on whole buffers, in place. */
module BranchConverters {
  import opened LowBits
  import opened Modular
  import opened BranchFilters
  import opened MachineWords
  import opened SparcRotation

  datatype Filter = FilterArm64 | FilterArm | FilterPpc | FilterSparc | FilterSparcRotated

  function Convert(f: Filter, v: Word, pc: Word, encoding: bool): Word {
    match f
    case FilterArm64 => Arm64(v, pc, encoding)
    case FilterArm => Arm(v, pc, encoding)
    case FilterPpc => Ppc(v, pc, encoding)
    case FilterSparc => Sparc(v, pc, encoding)
    case FilterSparcRotated => SparcRotated(v, pc, encoding)
  }

  function Next(pc: Word, n: nat): Word { (pc + n) % WORD }

  /** Each instruction is converted by its own position. */
  function ConvertAll(f: Filter, words: seq<Word>, pc: Word, encoding: bool): (r: seq<Word>)
    ensures |r| == |words|
  {
    if words == [] then []
    else [Convert(f, words[0], pc, encoding)] + ConvertAll(f, words[1..], Next(pc, 4), encoding)
  }

  lemma NextTwice(pc: Word, m: nat, n: nat)
    ensures Next(Next(pc, m), n) == Next(pc, m + n)
  {
    var q, r := (pc + m) / WORD, (pc + m) % WORD;
    assert pc + m + n == (r + n) + q * WORD;
    AddMultiple(r + n, q, WORD);
  }

  /** The position of an instruction is the start and four bytes for each instruction before it. */
  lemma {:induction false} ByPosition(f: Filter, words: seq<Word>, start: Word, e: bool, i: nat)
    requires i < |words|
    ensures ConvertAll(f, words, start, e)[i] == Convert(f, words[i], (start + 4 * i) % WORD, e)
    decreases |words|
  {
    hide Convert, Next;
    if i > 0 {
      ByPosition(f, words[1..], Next(start, 4), e, i - 1);
      NextIs(start, 4);
      NextIs(Next(start, 4), 4 * (i - 1));
      NextTwice(start, 4, 4 * (i - 1));
      NextIs(start, 4 * i);
    }
  }

  lemma NextIs(pc: Word, n: nat)
    ensures Next(pc, n) == (pc + n) % WORD
  {
  }

  /** Filters that need instructions at multiples of four. */
  predicate Undoable(f: Filter, pc: Word) { f.FilterArm64? || f.FilterArm? || pc % 4 == 0 }

  lemma WordInverse(f: Filter, v: Word, pc: Word, e: bool)
    requires Undoable(f, pc)
    ensures Convert(f, Convert(f, v, pc, e), pc, !e) == v
  {
    hide Arm64, Arm, Ppc, Sparc, SparcRotated;
    match f
    case FilterArm64 => Arm64Inverse(v, pc, e);
    case FilterArm => ArmInverse(v, pc, e);
    case FilterPpc => PpcInverse(v, pc, e);
    case FilterSparc => SparcInverse(v, pc, e);
    case FilterSparcRotated => RotatedInverse(v, pc, e);
  }

  /** Converting a buffer back undoes the conversion, whichever came first. */
  lemma {:induction false} BufferInverse(f: Filter, words: seq<Word>, pc: Word, e: bool)
    requires Undoable(f, pc)
    ensures ConvertAll(f, ConvertAll(f, words, pc, e), pc, !e) == words
    decreases |words|
  {
    hide Convert;
    if words != [] {
      WordInverse(f, words[0], pc, e);
      BufferInverse(f, words[1..], Next(pc, 4), e);
      var r := ConvertAll(f, words, pc, e);
      assert r[1..] == ConvertAll(f, words[1..], Next(pc, 4), e);
      assert words == [words[0]] + words[1..];
    }
  }

  lemma OneWord(f: Filter, v: Word, pc: Word, e: bool)
    ensures ConvertAll(f, [v], pc, e) == [Convert(f, v, pc, e)]
  {
    hide Convert;
    assert [v][1..] == [];
  }

  /** Encoding can be undone for all buffers exactly where a filter's alignment is kept. */
  lemma UndoableIff(f: Filter, pc: Word)
    ensures (forall w: seq<Word> :: ConvertAll(f, ConvertAll(f, w, pc, true), pc, false) == w) <==> Undoable(f, pc)
  {
    hide ConvertAll, Ppc, Sparc, SparcRotated, Arm64, Arm;
    if Undoable(f, pc) {
      forall w: seq<Word> ensures ConvertAll(f, ConvertAll(f, w, pc, true), pc, false) == w {
        BufferInverse(f, w, pc, true);
      }
    } else {
      var v: Word := if f.FilterPpc? then 0x4800_0001 else 0x4000_0000;
      if f.FilterPpc? {
        PpcMisaligned(pc, v);
      } else if f.FilterSparc? {
        SparcMisaligned(pc, v);
      } else {
        RotatedNotUndone(pc, v);
      }
      OneWord(f, v, pc, true);
      OneWord(f, Convert(f, v, pc, true), pc, false);
      assert ConvertAll(f, ConvertAll(f, [v], pc, true), pc, false) != [v];
    }
  }

  // ---------------------------------------------------------------- in place

  /** The first `i` words have been converted. */
  ghost predicate Upto(f: Filter, now: seq<Word>, words: seq<Word>, start: Word, i: nat, pc: Word, e: bool) {
    && |now| == |words| && i <= |words| && now[i..] == words[i..]
    && ConvertAll(f, words, start, e) == now[..i] + ConvertAll(f, words[i..], pc, e)
  }

  lemma UptoNext(f: Filter, now: seq<Word>, words: seq<Word>, start: Word, i: nat, pc: Word, e: bool)
    requires Upto(f, now, words, start, i, pc, e) && i < |words|
    ensures now[i] == words[i]
    ensures Upto(f, now[i := Convert(f, words[i], pc, e)], words, start, i + 1, Next(pc, 4), e)
  {
    hide Convert;
    assert now[i] == now[i..][0] == words[i..][0];
    var next := now[i := Convert(f, words[i], pc, e)];
    assert words[i..][1..] == words[i + 1..];
    assert next[i + 1..] == now[i..][1..];
    assert next[..i + 1] == now[..i] + [Convert(f, words[i], pc, e)];
  }

  lemma UptoEnd(f: Filter, now: seq<Word>, words: seq<Word>, start: Word, pc: Word, e: bool)
    requires Upto(f, now, words, start, |words|, pc, e)
    ensures now == ConvertAll(f, words, start, e)
  {
    assert now[..|words|] == now;
  }

  /** PowerPC and SPARC store instructions with the most significant byte first. */
  function BigEndian(f: Filter): bool { f.FilterPpc? || f.FilterSparc? || f.FilterSparcRotated? }

  /** One buffer is the conversion of the other; bytes after the last whole instruction are the same. */
  ghost predicate Converted(f: Filter, before: seq<Byte>, after: seq<Byte>, start: Word, e: bool) {
    && |after| == |before| && WordsIn(after, BigEndian(f)) == ConvertAll(f, WordsIn(before, BigEndian(f)), start, e)
    && after[|after| / 4 * 4..] == before[|before| / 4 * 4..]
  }

  /** Converting a buffer of bytes and converting it back restores it. */
  lemma BytesInverse(f: Filter, a: seq<Byte>, b: seq<Byte>, c: seq<Byte>, start: Word, e: bool)
    requires Undoable(f, start) && Converted(f, a, b, start, e) && Converted(f, b, c, start, !e)
    ensures c == a
  {
    hide ConvertAll, WordsIn;
    BufferInverse(f, WordsIn(a, BigEndian(f)), start, e);
    WordsDecide(a, c, BigEndian(f));
  }

  /** One instruction in place: the same word is written, or left alone. */
  lemma Written(f: Filter, now: seq<Word>, i: nat, v: Word)
    requires i < |now|
    ensures now[i] == v ==> now[i := v] == now
  {
  }

  lemma TopByte(b: seq<Byte>, i: nat)
    requires i < |b| / 4
    ensures WordsIn(b, false)[i] / 0x100_0000 == b[4 * i + 3]
  {
    assert WordsIn(b, false)[i] == WordAt(b, 4 * i, false);
  }

  /** The test for a PowerPC branch on a word that was read with the least significant byte first. */
  predicate IsPpcNative(v: Word) {
    var x := (v - 0x0100_0048) % WORD;
    x % 0x100 / 4 == 0 && x / 0x100_0000 % 4 == 0
  }

  lemma NativeTest(b: seq<Byte>, i: nat)
    requires i < |b| / 4
    ensures IsPpcNative(WordsIn(b, false)[i]) <==> IsPpcBl(WordsIn(b, true)[i])
  {
    var k := 4 * i;
    assert WordsIn(b, false)[i] == WordAt(b, k, false) && WordsIn(b, true)[i] == WordAt(b, k, true);
    NativeBytes(b[k], b[k + 1], b[k + 2], b[k + 3]);
  }

  lemma NativeBytes(p: Byte, q: Byte, r: Byte, s: Byte)
    ensures IsPpcNative(Joined(s, r, q, p)) <==> IsPpcBl(Joined(p, q, r, s))
  {
    hide IsPpcNative, IsPpcBl, Joined;
    PpcFields(Joined(p, q, r, s));
    BigFields(p, q, r, s);
    NativeFields(p, q, r, s);
  }

  lemma BigFields(p: Byte, q: Byte, r: Byte, s: Byte)
    ensures var v := Joined(p, q, r, s); v / 0x400_0000 == p / 4 && v % 4 == s % 4
  {
    var low: nat := p % 4 * 0x100_0000 + q * 0x1_0000 + r * 0x100 + s;
    assert Joined(p, q, r, s) == p / 4 * 0x400_0000 + low;
  }

  lemma NativeFields(p: Byte, q: Byte, r: Byte, s: Byte)
    ensures IsPpcNative(Joined(s, r, q, p)) <==> p / 4 == 0x12 && s % 4 == 1
  {
    var v := Joined(s, r, q, p);
    var x := (v - 0x0100_0048) % WORD;
    var m: nat := r * 0x100 + q;
    assert v == s * 0x100_0000 + m * 0x100 + p;
    hide Joined;
    NativeLow(v, s, m, p);
    if p / 4 == 0x12 {
      NativeHigh(v, s, m, p);
    }
  }

  lemma NativeLow(v: Word, s: Byte, m: nat, p: Byte)
    requires m < 0x1_0000 && v == s * 0x100_0000 + m * 0x100 + p
    ensures (v - 0x0100_0048) % WORD % 0x100 / 4 == 0 <==> p / 4 == 0x12
  {
    var k: int := s * 0x1_0000 + m - 0x1_0000 + if v < 0x0100_0048 then 0x100_0000 else 0;
    assert (v - 0x0100_0048) % WORD == k * 0x100 + (p - 0x48);
    AddMultiple(p - 0x48, k, 0x100);
  }

  lemma NativeHigh(v: Word, s: Byte, m: nat, p: Byte)
    requires m < 0x1_0000 && v == s * 0x100_0000 + m * 0x100 + p && p / 4 == 0x12
    ensures (v - 0x0100_0048) % WORD / 0x100_0000 % 4 == 0 <==> s % 4 == 1
  {
    var low: nat, high: nat := m * 0x100 + (p - 0x48), if s >= 1 then s - 1 else 0xFF;
    assert (v - 0x0100_0048) % WORD == high * 0x100_0000 + low;
  }

  method ConvertArm64(data: array<Byte>, start: Word, encoding: bool) returns (end: nat)
    modifies data
    ensures Converted(FilterArm64, old(data[..]), data[..], start, encoding) && end == data.Length / 4 * 4
  {
    hide WordsIn, Moved, IsBl64, Biased, Page, Adrp, Bare, PageOf, ConvertAll, Upto;
    ghost var words := WordsIn(data[..], false);
    end := data.Length / 4 * 4;
    var pc: Word := start;
    UptoStart(FilterArm64, words, start, encoding);
    for i := 0 to data.Length / 4
      invariant Upto(FilterArm64, WordsIn(data[..], false), words, start, i, pc, encoding)
      invariant data[end..] == old(data[end..])
    {
      UptoNext(FilterArm64, WordsIn(data[..], false), words, start, i, pc, encoding);
      Written(FilterArm64, WordsIn(data[..], false), i, Convert(FilterArm64, words[i], pc, encoding));
      var v := GetWord(data, i, false);
      if IsBl64(v) {
        SetWord(data, i, false, Moved(v, pc / 4, encoding) % 0x400_0000 + 0x9400_0000);
      } else if IsAdrp(v) {
        SetWord(data, i, false, Adrp(Biased(v) % 0x20, Moved(Page(v), PageOf(pc), encoding)));
      }
      pc := Next(pc, 4);
    }
    UptoEnd(FilterArm64, WordsIn(data[..], false), words, start, pc, encoding);
  }

  method ConvertArm(data: array<Byte>, start: Word, encoding: bool) returns (end: nat)
    modifies data
    ensures Converted(FilterArm, old(data[..]), data[..], start, encoding) && end == data.Length / 4 * 4
  {
    hide WordsIn, Moved, ConvertAll, Upto;
    ghost var words := WordsIn(data[..], false);
    end := data.Length / 4 * 4;
    var pc: Word := start;
    UptoStart(FilterArm, words, start, encoding);
    for i := 0 to data.Length / 4
      invariant Upto(FilterArm, WordsIn(data[..], false), words, start, i, pc, encoding)
      invariant data[end..] == old(data[end..])
    {
      UptoNext(FilterArm, WordsIn(data[..], false), words, start, i, pc, encoding);
      Written(FilterArm, WordsIn(data[..], false), i, Convert(FilterArm, words[i], pc, encoding));
      TopByte(data[..], i);
      if data[4 * i + 3] == 0xEB {
        var v := GetWord(data, i, false);
        SetWord(data, i, false, Moved(v, (pc + 8) % WORD / 4, encoding) % 0x100_0000 + 0xEB00_0000);
      }
      pc := Next(pc, 4);
    }
    UptoEnd(FilterArm, WordsIn(data[..], false), words, start, pc, encoding);
  }

  method ConvertPpc(data: array<Byte>, start: Word, encoding: bool) returns (end: nat)
    modifies data
    ensures Converted(FilterPpc, old(data[..]), data[..], start, encoding) && end == data.Length / 4 * 4
  {
    hide WordsIn, Moved, ConvertAll, Upto;
    ghost var words := WordsIn(data[..], true);
    end := data.Length / 4 * 4;
    var pc: Word := start;
    UptoStart(FilterPpc, words, start, encoding);
    for i := 0 to data.Length / 4
      invariant Upto(FilterPpc, WordsIn(data[..], true), words, start, i, pc, encoding)
      invariant data[end..] == old(data[end..])
    {
      UptoNext(FilterPpc, WordsIn(data[..], true), words, start, i, pc, encoding);
      Written(FilterPpc, WordsIn(data[..], true), i, Convert(FilterPpc, words[i], pc, encoding));
      var native := GetWord(data, i, false);
      NativeTest(data[..], i);
      if IsPpcNative(native) {
        var v := GetWord(data, i, true);
        SetWord(data, i, true, Moved(v, pc, encoding) % 0x400_0000 + 0x4800_0000);
      }
      pc := Next(pc, 4);
    }
    UptoEnd(FilterPpc, WordsIn(data[..], true), words, start, pc, encoding);
  }

  method ConvertSparc(data: array<Byte>, start: Word, encoding: bool) returns (end: nat)
    modifies data
    ensures Converted(FilterSparc, old(data[..]), data[..], start, encoding) && end == data.Length / 4 * 4
  {
    hide WordsIn, Moved, ConvertAll, Upto, SparcCall;
    ghost var words := WordsIn(data[..], true);
    end := data.Length / 4 * 4;
    var pc: Word := start;
    UptoStart(FilterSparc, words, start, encoding);
    for i := 0 to data.Length / 4
      invariant Upto(FilterSparc, WordsIn(data[..], true), words, start, i, pc, encoding)
      invariant data[end..] == old(data[end..])
    {
      UptoNext(FilterSparc, WordsIn(data[..], true), words, start, i, pc, encoding);
      Written(FilterSparc, WordsIn(data[..], true), i, Convert(FilterSparc, words[i], pc, encoding));
      var v := GetWord(data, i, true);
      var w := Displaced(v);
      if w / 0x80_0000 == 0 {
        SetWord(data, i, true, SparcCall(Moved(4 * w % WORD, pc, encoding) % 0x200_0000));
      }
      pc := Next(pc, 4);
    }
    UptoEnd(FilterSparc, WordsIn(data[..], true), words, start, pc, encoding);
  }

  method ConvertSparcRotated(data: array<Byte>, start: Word, encoding: bool) returns (end: nat)
    modifies data
    ensures Converted(FilterSparcRotated, old(data[..]), data[..], start, encoding) && end == data.Length / 4 * 4
  {
    hide WordsIn, Moved, ConvertAll, Upto, RotatedCall;
    ghost var words := WordsIn(data[..], true);
    end := data.Length / 4 * 4;
    var pc: Word := start;
    UptoStart(FilterSparcRotated, words, start, encoding);
    for i := 0 to data.Length / 4
      invariant Upto(FilterSparcRotated, WordsIn(data[..], true), words, start, i, pc, encoding)
      invariant data[end..] == old(data[end..])
    {
      UptoNext(FilterSparcRotated, WordsIn(data[..], true), words, start, i, pc, encoding);
      Written(FilterSparcRotated, WordsIn(data[..], true), i, Convert(FilterSparcRotated, words[i], pc, encoding));
      var instruction := GetWord(data, i, true);
      var v := Shifted(instruction);
      if v % 4 == 0 && v / 0x200_0000 == 0 {
        SetWord(data, i, true, RotatedCall(Moved(v, pc, encoding) % 0x200_0000));
      }
      pc := Next(pc, 4);
    }
    UptoEnd(FilterSparcRotated, WordsIn(data[..], true), words, start, pc, encoding);
  }

  lemma UptoStart(f: Filter, words: seq<Word>, start: Word, e: bool)
    ensures Upto(f, words, words, start, 0, start, e)
  {
    assert words[0..] == words && words[..0] == [];
  }

  // ---------------------------------------------------------------- ARM Thumb

  /** Branches are pairs of halves; a pair is converted as a whole, everything else is left alone. */
  function ThumbAll(h: seq<Half>, pc: Word, encoding: bool): (r: seq<Half>)
    ensures |r| == |h|
    decreases |h|
  {
    if |h| < 2 then h
    else if IsBlPair(h[0], h[1]) then
      var (x, y) := Thumb(h[0], h[1], pc, encoding);
      [x, y] + ThumbAll(h[2..], Next(pc, 4), encoding)
    else [h[0]] + ThumbAll(h[1..], Next(pc, 2), encoding)
  }

  /** Where the scan for branches ends: before a last half that may be the start of one. */
  function Scanned(h: seq<Half>): (n: nat)
    ensures n <= |h| <= n + 1 || (n == 0 && |h| < 2)
    decreases |h|
  {
    if |h| < 2 then 0 else if IsBlPair(h[0], h[1]) then 2 + Scanned(h[2..]) else 1 + Scanned(h[1..])
  }

  lemma ThumbKeepsKind(a: Half, b: Half, pc: Word, e: bool)
    requires IsBlPair(a, b)
    ensures IsBlPair(Thumb(a, b, pc, e).0, Thumb(a, b, pc, e).1)
  {
    ThumbInverse(a, b, pc, e);
  }

  lemma FirstKeepsKind(h: seq<Half>, pc: Word, e: bool)
    requires h != []
    ensures var r := ThumbAll(h, pc, e);
            (r[0] / 0x800 == 0x1F <==> h[0] / 0x800 == 0x1F) && (|h| == 1 || !IsBlPair(h[0], h[1]) ==> r[0] == h[0])
  {
    hide Thumb;
    if |h| >= 2 && IsBlPair(h[0], h[1]) {
      ThumbKeepsKind(h[0], h[1], pc, e);
    }
  }

  /** The same pairs are recognized again, and converting back undoes the conversion. */
  lemma {:induction false} ThumbBufferInverse(h: seq<Half>, pc: Word, e: bool)
    ensures ThumbAll(ThumbAll(h, pc, e), pc, !e) == h && Scanned(ThumbAll(h, pc, e)) == Scanned(h)
    decreases |h|
  {
    hide Thumb;
    if |h| >= 2 {
      var r := ThumbAll(h, pc, e);
      if IsBlPair(h[0], h[1]) {
        ThumbInverse(h[0], h[1], pc, e);
        ThumbBufferInverse(h[2..], Next(pc, 4), e);
        assert r[2..] == ThumbAll(h[2..], Next(pc, 4), e);
        assert h == [h[0], h[1]] + h[2..];
      } else {
        FirstKeepsKind(h[1..], Next(pc, 2), e);
        ThumbBufferInverse(h[1..], Next(pc, 2), e);
        assert r[1..] == ThumbAll(h[1..], Next(pc, 2), e);
        assert h == [h[0]] + h[1..];
      }
    }
  }

  /** Pairs do not overlap. */
  lemma PairsDisjoint(a: Half, b: Half, c: Half)
    ensures !(IsBlPair(a, b) && IsBlPair(b, c))
  {
  }

  lemma ThumbFront(h: seq<Half>, start: Word, e: bool)
    requires |h| >= 2
    ensures var r := ThumbAll(h, start, e);
            if IsBlPair(h[0], h[1]) then (r[0], r[1]) == Thumb(h[0], h[1], start, e) && r[2..] == ThumbAll(h[2..], Next(start, 4), e)
            else r[0] == h[0] && r[1..] == ThumbAll(h[1..], Next(start, 2), e)
  {
    hide Thumb, Next, IsBlPair;
  }

  /** A pair is converted by its position, two bytes for each half before it, and halves that are in no pair stay. */
  lemma {:induction false} ThumbByPosition(h: seq<Half>, start: Word, e: bool, i: nat)
    requires i < |h|
    ensures i + 1 < |h| && IsBlPair(h[i], h[i + 1]) ==>
              (ThumbAll(h, start, e)[i], ThumbAll(h, start, e)[i + 1]) == Thumb(h[i], h[i + 1], (start + 2 * i) % WORD, e)
    ensures !(i + 1 < |h| && IsBlPair(h[i], h[i + 1])) && !(i > 0 && IsBlPair(h[i - 1], h[i])) ==>
              ThumbAll(h, start, e)[i] == h[i]
    decreases |h|
  {
    hide Thumb, Next, IsBlPair;
    if |h| >= 2 {
      ThumbFront(h, start, e);
      hide ThumbAll;
      var n := if IsBlPair(h[0], h[1]) then 2 else 1;
      if |h| >= 3 {
        PairsDisjoint(h[0], h[1], h[2]);
      }
      if i >= n {
        ThumbByPosition(h[n..], Next(start, 2 * n), e, i - n);
        NextIs(Next(start, 2 * n), 2 * (i - n));
        NextTwice(start, 2 * n, 2 * (i - n));
        NextIs(start, 2 * i);
      }
    }
  }

  /** One buffer is the conversion of the other; an odd byte at the end is the same. */
  ghost predicate ThumbConverted(before: seq<Byte>, after: seq<Byte>, start: Word, e: bool) {
    && |after| == |before| && HalvesIn(after) == ThumbAll(HalvesIn(before), start, e)
    && after[|after| / 2 * 2..] == before[|before| / 2 * 2..]
  }

  lemma ThumbBytesInverse(a: seq<Byte>, b: seq<Byte>, c: seq<Byte>, start: Word, e: bool)
    requires ThumbConverted(a, b, start, e) && ThumbConverted(b, c, start, !e)
    ensures c == a
  {
    hide ThumbAll, HalvesIn;
    ThumbBufferInverse(HalvesIn(a), start, e);
    HalvesDecide(a, c);
  }

  /** Converts in place, and returns where scanning ended. */
  method ConvertThumb(data: array<Byte>, start: Word, encoding: bool) returns (end: nat)
    modifies data
    ensures ThumbConverted(old(data[..]), data[..], start, encoding) && end == 2 * Scanned(old(HalvesIn(data[..])))
  {
    hide Thumb, IsBlPair, HalvesIn, ThumbAll, Scanned, ThumbUpto;
    ghost var h := HalvesIn(data[..]);
    var pc: Word := start;
    var i := 0;
    ThumbStart(h, start, encoding);
    while i + 1 < data.Length / 2
      invariant i <= data.Length / 2 && ThumbUpto(HalvesIn(data[..]), h, start, i, pc, encoding)
      invariant data[data.Length / 2 * 2..] == old(data[data.Length / 2 * 2..])
      decreases data.Length - i
    {
      ThumbNext(HalvesIn(data[..]), h, start, i, pc, encoding);
      var a, b := HalfOf(data[2 * i], data[2 * i + 1]), HalfOf(data[2 * i + 2], data[2 * i + 3]);
      if IsBlPair(a, b) {
        var (x, y) := Thumb(a, b, pc, encoding);
        SetHalf(data, i, x);
        SetHalf(data, i + 1, y);
        i := i + 2;
        pc := Next(pc, 4);
      } else {
        i := i + 1;
        pc := Next(pc, 2);
      }
    }
    ThumbEnd(HalvesIn(data[..]), h, start, i, pc, encoding);
    end := 2 * i;
  }

  ghost predicate ThumbUpto(now: seq<Half>, h: seq<Half>, start: Word, i: nat, pc: Word, e: bool) {
    && |now| == |h| && i <= |h| && now[i..] == h[i..] && Scanned(h) == i + Scanned(h[i..])
    && ThumbAll(h, start, e) == now[..i] + ThumbAll(h[i..], pc, e)
  }

  lemma ThumbStart(h: seq<Half>, start: Word, e: bool)
    ensures ThumbUpto(h, h, start, 0, start, e)
  {
    assert h[0..] == h && h[..0] == [];
  }

  lemma ThumbNext(now: seq<Half>, h: seq<Half>, start: Word, i: nat, pc: Word, e: bool)
    requires ThumbUpto(now, h, start, i, pc, e) && i + 1 < |h|
    ensures var (x, y) := Thumb(now[i], now[i + 1], pc, e);
            if IsBlPair(now[i], now[i + 1])
            then ThumbUpto(now[i := x][i + 1 := y], h, start, i + 2, Next(pc, 4), e)
            else ThumbUpto(now, h, start, i + 1, Next(pc, 2), e)
  {
    hide Thumb, IsBlPair;
    var t := h[i..];
    assert now[i] == now[i..][0] == t[0] && now[i + 1] == now[i..][1] == t[1];
    if IsBlPair(now[i], now[i + 1]) {
      var (x, y) := Thumb(now[i], now[i + 1], pc, e);
      var next := now[i := x][i + 1 := y];
      assert t[2..] == h[i + 2..];
      assert next[i + 2..] == now[i..][2..];
      assert next[..i + 2] == now[..i] + [x, y];
    } else {
      assert t[1..] == h[i + 1..];
      assert now[i + 1..] == now[i..][1..];
      assert now[..i + 1] == now[..i] + [now[i]];
    }
  }

  lemma ThumbEnd(now: seq<Half>, h: seq<Half>, start: Word, i: nat, pc: Word, e: bool)
    requires ThumbUpto(now, h, start, i, pc, e) && i + 1 >= |h|
    ensures now == ThumbAll(h, start, e) && i == Scanned(h)
  {
    assert now == now[..i] + now[i..];
  }
}
