/** Decoding a symbol depends on the bytes it reads and on nothing else. */
module LzmaLocal {
  import opened Options
  import opened LowBits
  import opened History
  import opened LzmaSymbol
  import opened LzmaRange
  import opened LzmaBudget
  import opened LzmaDec
  import opened LzmaStream

  function Moved(rc: Rc, a: int): Rc
    requires rc.at + a >= 0
  {
    rc.(at := rc.at + a)
  }

  function MovedWet(w: Option<Wet>, a: nat): Option<Wet> {
    if w.Some? then Some(w.value.(rc := Moved(w.value.rc, a))) else None
  }

  /** Reading a part of the data by itself. */
  lemma {:induction false} WetLocal(c: Ctx, probs: Probs, st: Sym, rc: Rc, data: seq<Byte>, a: nat)
    requires Proper(c) && Sane(st) && a <= |data|
    ensures WetRun(c, probs, st, Moved(rc, a), data) == MovedWet(WetRun(c, probs, st, rc, data[a..]), a)
    decreases Height(st)
  {
    hide After, SlotOf, Sane, Height, Learned, OneBit;
    var n := Normalize(rc, data[a..]);
    if n.Some? && !st.Done? {
      var (r, b) := OneBit(c, probs, st, n.value);
      BitLocal(c, probs, st, n.value, a);
      AfterIsSane(c, st, b);
      WetLocal(c, Learned(c, probs, st, b), After(c, st, b), r, data, a);
    }
  }

  lemma BitLocal(c: Ctx, probs: Probs, st: Sym, rc: Rc, a: nat)
    requires Proper(c) && !st.Done? && Sane(st)
    ensures OneBit(c, probs, st, Moved(rc, a)) == (Moved(OneBit(c, probs, st, rc).0, a), OneBit(c, probs, st, rc).1)
  {
    hide Sane, SlotOf;
  }

  /** More data changes nothing. */
  lemma {:induction false} WetMore(c: Ctx, probs: Probs, st: Sym, rc: Rc, data: seq<Byte>, longer: seq<Byte>)
    requires Proper(c) && Sane(st) && data <= longer
    ensures WetRun(c, probs, st, rc, data).Some? ==> WetRun(c, probs, st, rc, longer) == WetRun(c, probs, st, rc, data)
    decreases Height(st)
  {
    hide After, SlotOf, Sane, Height, Learned, OneBit;
    var n := Normalize(rc, data);
    if n.Some? && !st.Done? {
      var (r, b) := OneBit(c, probs, st, n.value);
      AfterIsSane(c, st, b);
      WetMore(c, Learned(c, probs, st, b), After(c, st, b), r, data, longer);
    }
  }

  /** What was read suffices. */
  lemma {:induction false} WetExact(c: Ctx, probs: Probs, st: Sym, rc: Rc, data: seq<Byte>, m: nat)
    requires Proper(c) && Sane(st) && WetRun(c, probs, st, rc, data).Some? && rc.at <= |data|
    requires WetRun(c, probs, st, rc, data).value.rc.at <= m <= |data|
    ensures rc.at <= WetRun(c, probs, st, rc, data).value.rc.at
    ensures WetRun(c, probs, st, rc, data[..m]) == WetRun(c, probs, st, rc, data)
    decreases Height(st)
  {
    hide After, SlotOf, Sane, Height, Learned, Normalize, OneBit;
    var n := Normalize(rc, data).value;
    if st.Done? {
      NormalizeExact(rc, data, m);
    } else {
      var (r, b) := OneBit(c, probs, st, n);
      BitKeepsPlace(c, probs, st, n);
      AfterIsSane(c, st, b);
      NormalizedPlace(rc, data);
      WetExact(c, Learned(c, probs, st, b), After(c, st, b), r, data, m);
      NormalizeExact(rc, data, m);
    }
  }

  lemma NormalizedPlace(rc: Rc, data: seq<Byte>)
    requires rc.at <= |data| && Normalize(rc, data).Some?
    ensures rc.at <= Normalize(rc, data).value.at <= |data|
  {
  }

  lemma NormalizeExact(rc: Rc, data: seq<Byte>, m: nat)
    requires rc.at <= |data| && m <= |data| && Normalize(rc, data).Some? && Normalize(rc, data).value.at <= m
    ensures rc.at <= Normalize(rc, data).value.at && Normalize(rc, data[..m]) == Normalize(rc, data)
  {
  }

  // ---------------------------------------------------------------- symbols and runs of symbols

  function MovedLz(z: Lz, a: int): Lz
    requires z.rc.at + a >= 0
  {
    z.(rc := Moved(z.rc, a))
  }

  /** A symbol in a buffer that holds the part of the stream from `a` on. */
  lemma SymbolLocal(p: Props, z: Lz, stream: seq<Byte>, a: nat, buf: seq<Byte>)
    requires PropsOk(p) && z.regs.state < 12 && a + |buf| <= |stream| && buf == stream[a..a + |buf|]
    ensures Found(p, z, buf).Some? ==> Found(p, MovedLz(z, a), stream) == MovedWet(Found(p, z, buf), a)
    ensures Found(p, z, buf) == None <==> Found(p, MovedLz(z, a), stream[..a + |buf|]) == None
  {
    hide WetRun;
    var c := ContextOf(p, z);
    assert c == ContextOf(p, MovedLz(z, a));
    WetLocal(c, z.probs, AtIsMatch, z.rc, stream, a);
    WetMore(c, z.probs, AtIsMatch, z.rc, buf, stream[a..]);
    WetLocal(c, z.probs, AtIsMatch, z.rc, stream[..a + |buf|], a);
    assert stream[..a + |buf|][a..] == buf;
  }

  lemma ApplyLocal(p: Props, z: Lz, w: Wet, a: nat)
    ensures Apply(p, MovedLz(z, a), w.(rc := Moved(w.rc, a))) ==
            match Apply(p, z, w)
            case Next(y) => Next(MovedLz(y, a))
            case Mark(rc, probs) => Mark(Moved(rc, a), probs)
            case Bad => Bad
            case Starved => Starved
  {
    hide Copied;
  }

  lemma Symbol1Local(p: Props, z: Lz, stream: seq<Byte>, a: nat, buf: seq<Byte>)
    requires PropsOk(p) && z.regs.state < 12 && a + |buf| <= |stream| && buf == stream[a..a + |buf|]
    ensures var b := Symbol1(p, MovedLz(z, a), stream);
            match Symbol1(p, z, buf)
            case Next(y) => b == Next(MovedLz(y, a))
            case Mark(rc, probs) => b == Mark(Moved(rc, a), probs)
            case Bad => b == Bad
            case Starved => true
  {
    hide WetRun, Apply;
    SymbolLocal(p, z, stream, a, buf);
    var r := Found(p, z, buf);
    if r.Some? {
      ApplyLocal(p, z, r.value, a);
      NeverStarved(p, z, r.value);
    }
  }

  lemma NeverStarved(p: Props, z: Lz, w: Wet)
    ensures !Apply(p, z, w).Starved?
  {
    hide Copied;
  }

  lemma {:induction false} SymbolsLocal(p: Props, z: Lz, stream: seq<Byte>, a: nat, buf: seq<Byte>, k: nat)
    requires PropsOk(p) && z.regs.state < 12 && a + |buf| <= |stream| && buf == stream[a..a + |buf|]
    requires Symbols(p, z, buf, k).Some?
    ensures Symbols(p, MovedLz(z, a), stream, k) == Some(MovedLz(Symbols(p, z, buf, k).value, a))
    decreases k
  {
    hide Symbol1;
    if k > 0 {
      SymbolsLocal(p, z, stream, a, buf, k - 1);
      Symbol1Local(p, Symbols(p, z, buf, k - 1).value, stream, a, buf);
    }
  }

  lemma {:induction false} SymbolsAdd(p: Props, z: Lz, data: seq<Byte>, k: nat, m: nat)
    requires PropsOk(p) && z.regs.state < 12 && Symbols(p, z, data, k).Some?
    ensures Symbols(p, z, data, k + m) == Symbols(p, Symbols(p, z, data, k).value, data, m)
    decreases m
  {
    hide Symbol1;
    if m > 0 {
      SymbolsAdd(p, z, data, k, m - 1);
    }
  }

  /** Along a run the states stay sound and the output only grows. */
  lemma {:induction false} RunGrows(p: Props, z: Lz, data: seq<Byte>, k: nat)
    requires Sound(p, z) && PropsOk(p) && z.regs.state < 12 && Symbols(p, z, data, k).Some?
    ensures var y := Symbols(p, z, data, k).value;
            Sound(p, y) && z.past <= y.past && (z.rc.at <= |data| ==> z.rc.at <= y.rc.at <= |data|)
    decreases k
  {
    hide Symbol1, Sound;
    if k > 0 {
      RunGrows(p, z, data, k - 1);
      SymbolKeepsSound(p, Symbols(p, z, data, k - 1).value, data);
    }
  }
}
