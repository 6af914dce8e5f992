/** What a 7z folder looks like: its coders, how their streams are bound to each other, and the packed streams. */
module SevenZipFolders {
  import opened Options
  import opened LowBits
  import opened SevenZipNumbers

  /** `propsAt` counts from the start of the folder. */
  datatype Coder = Coder(id: nat, streams: nat, propsAt: nat, propsSize: nat)

  datatype Bond = Bond(inIndex: nat, outIndex: nat)

  datatype Bound = Bound(bonds: seq<Bond>, usedIn: set<nat>, usedOut: set<nat>)

  datatype Folder = Folder(coders: seq<Coder>, bonds: seq<Bond>, packs: seq<nat>, main: nat)

  function BigEndian(bytes: seq<Byte>): nat {
    if bytes == [] then 0 else 256 * BigEndian(bytes[..|bytes| - 1]) + bytes[|bytes| - 1]
  }

  /** The number of input streams of a coder with flag 0x10; there must be one output stream. */
  function Streams(data: seq<Byte>, at: nat, main: Byte): (r: Option<At<nat>>)
    requires at <= |data|
    ensures r.Some? ==> at <= r.value.next <= |data|
  {
    if main / 0x10 % 2 == 0 then Some(At(1, at))
    else
      match Number32(data, at)
      case None => None
      case Some(ins) =>
        match Number32(data, ins.next)
        case None => None
        case Some(outs) => if outs.value == 1 then Some(At(ins.value, outs.next)) else None
  }

  /** The properties of a coder with flag 0x20: where they start and how long they are. */
  function Props(data: seq<Byte>, at: nat, start: nat, main: Byte): (r: Option<At<(nat, nat)>>)
    requires start <= at <= |data|
    ensures r.Some? ==> at <= r.value.next <= |data|
  {
    if main / 0x20 % 2 == 0 then Some(At((0, 0), at))
    else
      match Number32(data, at)
      case None => None
      case Some(size) =>
        if size.next + size.value > |data| then None
        else Some(At((size.next - start, size.value), size.next + size.value))
  }

  function OneCoder(data: seq<Byte>, at: nat, start: nat): (r: Option<At<Coder>>)
    requires start <= at
    ensures r.Some? ==> at < r.value.next <= |data|
  {
    if at >= |data| || data[at] >= 0x40 then None
    else
      var main, idSize := data[at], data[at] % 0x10;
      if idSize > 8 || at + 1 + idSize > |data| then None
      else
        match Streams(data, at + 1 + idSize, main)
        case None => None
        case Some(s) =>
          match Props(data, s.next, start, main)
          case None => None
          case Some(p) =>
            Some(At(Coder(BigEndian(data[at + 1..at + 1 + idSize]), s.value, p.value.0, p.value.1), p.next))
  }

  /** `n` more coders after those in `acc`. */
  function Coders(data: seq<Byte>, at: nat, start: nat, n: nat, acc: seq<Coder>): (r: Option<At<seq<Coder>>>)
    requires start <= at
    ensures r.Some? ==> at <= r.value.next && |r.value.value| == |acc| + n && acc <= r.value.value
    decreases n
  {
    if n == 0 then Some(At(acc, at))
    else
      match OneCoder(data, at, start)
      case None => None
      case Some(c) => Coders(data, c.next, start, n - 1, acc + [c.value])
  }

  function Total(coders: seq<Coder>): nat {
    if coders == [] then 0 else Total(coders[..|coders| - 1]) + coders[|coders| - 1].streams
  }

  /** `n` more bonds; no stream and no coder may be bound twice. */
  function Bonds(data: seq<Byte>, at: nat, n: nat, streams: nat, coders: nat, acc: Bound): (r: Option<At<Bound>>)
    ensures r.Some? ==> at <= r.value.next
    decreases n
  {
    if n == 0 then Some(At(acc, at))
    else
      match Number32(data, at)
      case None => None
      case Some(i) =>
        if i.value >= streams || i.value in acc.usedIn then None
        else
          match Number32(data, i.next)
          case None => None
          case Some(o) =>
            if o.value >= coders || o.value in acc.usedOut then None
            else Bonds(data, o.next, n - 1, streams, coders,
                       Bound(acc.bonds + [Bond(i.value, o.value)], acc.usedIn + {i.value}, acc.usedOut + {o.value}))
  }

  /** `n` more packed streams, all different and unbound. */
  function Packs(data: seq<Byte>, at: nat, n: nat, streams: nat, used: set<nat>, acc: seq<nat>): (r: Option<At<seq<nat>>>)
    ensures r.Some? ==> at <= r.value.next
    decreases n
  {
    if n == 0 then Some(At(acc, at))
    else
      match Number32(data, at)
      case None => None
      case Some(i) =>
        if i.value >= streams || i.value in used then None
        else Packs(data, i.next, n - 1, streams, used + {i.value}, acc + [i.value])
  }

  /** The first number from `i` on that is not used. */
  function FirstUnused(i: nat, used: set<nat>): (r: nat)
    ensures r >= i && r !in used && forall k :: i <= k < r ==> k in used
    decreases used
  {
    if i !in used then i else FirstUnused(i + 1, used - {i})
  }

  /** The packed streams: a single one is not transmitted. */
  function PackStreams(data: seq<Byte>, at: nat, streams: nat, bonds: nat, usedIn: set<nat>): (r: Option<At<seq<nat>>>)
    requires bonds <= streams
    ensures r.Some? ==> at <= r.value.next
  {
    if streams - bonds == 1 then Some(At([FirstUnused(0, usedIn)], at))
    else Packs(data, at, streams - bonds, streams, usedIn, [])
  }

  function Bindings(data: seq<Byte>, at: nat, coders: seq<Coder>): (r: Option<At<Folder>>)
    requires coders != []
    ensures r.Some? ==> at <= r.value.next
  {
    var streams, n := Total(coders), |coders| - 1;
    if streams < n then None
    else
      match Bonds(data, at, n, streams, |coders|, Bound([], {}, {}))
      case None => None
      case Some(b) =>
        match PackStreams(data, b.next, streams, n, b.value.usedIn)
        case None => None
        case Some(p) => Some(At(Folder(coders, b.value.bonds, p.value, FirstUnused(0, b.value.usedOut)), p.next))
  }

  /** A folder, whatever its size. */
  function Syntax(data: seq<Byte>, at: nat): (r: Option<At<Folder>>)
    ensures r.Some? ==> at < r.value.next
  {
    match Number32(data, at)
    case None => None
    case Some(n) =>
      if n.value == 0 then None
      else
        match Coders(data, n.next, at, n.value, [])
        case None => None
        case Some(cs) => Bindings(data, cs.next, cs.value)
  }

  // ---------------------------------------------------------------- there is always a main coder

  lemma {:induction false} BondsUse(data: seq<Byte>, at: nat, n: nat, streams: nat, coders: nat, acc: Bound)
    requires (forall k :: k in acc.usedIn ==> k < streams) && (forall k :: k in acc.usedOut ==> k < coders)
    ensures Bonds(data, at, n, streams, coders, acc).Some? ==>
              var b := Bonds(data, at, n, streams, coders, acc).value.value;
              && |b.usedIn| == |acc.usedIn| + n && |b.usedOut| == |acc.usedOut| + n && |b.bonds| == |acc.bonds| + n
              && (forall k :: k in b.usedIn ==> k < streams) && (forall k :: k in b.usedOut ==> k < coders)
    decreases n
  {
    hide Number32;
    if n > 0 && Number32(data, at).Some? {
      var i := Number32(data, at).value;
      if i.value < streams && i.value !in acc.usedIn && Number32(data, i.next).Some? {
        var o := Number32(data, i.next).value;
        if o.value < coders && o.value !in acc.usedOut {
          BondsUse(data, o.next, n - 1, streams, coders,
                   Bound(acc.bonds + [Bond(i.value, o.value)], acc.usedIn + {i.value}, acc.usedOut + {o.value}));
        }
      }
    }
  }

  lemma {:induction false} Pigeonhole(used: set<nat>, n: nat)
    requires forall k :: 0 <= k < n ==> k in used
    ensures |used| >= n
    decreases n
  {
    if n > 0 {
      var smaller := used - {n - 1};
      forall k | 0 <= k < n - 1 ensures k in smaller {
      }
      Pigeonhole(smaller, n - 1);
    }
  }

  lemma UnusedExists(used: set<nat>, n: nat)
    requires |used| < n
    ensures FirstUnused(0, used) < n
  {
    if FirstUnused(0, used) >= n {
      Pigeonhole(used, n);
    }
  }

  /** A folder always has a main coder, whose output is not bound to anything. */
  lemma MainExists(data: seq<Byte>, at: nat)
    requires Syntax(data, at).Some?
    ensures var f := Syntax(data, at).value.value;
            f.main < |f.coders| && forall b :: b in f.bonds ==> b.outIndex != f.main
  {
    hide Coders, Number32, PackStreams, Total;
    var n := Number32(data, at).value;
    var cs := Coders(data, n.next, at, n.value, []).value;
    BondsUse(data, cs.next, |cs.value| - 1, Total(cs.value), |cs.value|, Bound([], {}, {}));
    BondsNamed(data, cs.next, |cs.value| - 1, Total(cs.value), |cs.value|, Bound([], {}, {}));
    var b := Bonds(data, cs.next, |cs.value| - 1, Total(cs.value), |cs.value|, Bound([], {}, {})).value.value;
    UnusedExists(b.usedOut, |cs.value|);
  }

  lemma {:induction false} BondsNamed(data: seq<Byte>, at: nat, n: nat, streams: nat, coders: nat, acc: Bound)
    requires forall b :: b in acc.bonds ==> b.inIndex in acc.usedIn && b.outIndex in acc.usedOut
    ensures Bonds(data, at, n, streams, coders, acc).Some? ==>
              var r := Bonds(data, at, n, streams, coders, acc).value.value;
              forall b :: b in r.bonds ==> b.inIndex in r.usedIn && b.outIndex in r.usedOut
    decreases n
  {
    hide Number32;
    if n > 0 && Number32(data, at).Some? {
      var i := Number32(data, at).value;
      if i.value < streams && i.value !in acc.usedIn && Number32(data, i.next).Some? {
        var o := Number32(data, i.next).value;
        if o.value < coders && o.value !in acc.usedOut {
          BondsNamed(data, o.next, n - 1, streams, coders,
                     Bound(acc.bonds + [Bond(i.value, o.value)], acc.usedIn + {i.value}, acc.usedOut + {o.value}));
        }
      }
    }
  }

  // ---------------------------------------------------------------- a folder depends on its own bytes only

  /** The same parse, with positions that start at `a`. */
  function Moved<T>(r: At<T>, a: nat): At<T>
    requires a <= r.next
  {
    At(r.value, r.next - a)
  }

  lemma StreamsLocal(data: seq<Byte>, a: nat, b: nat, at: nat, main: Byte)
    requires a <= at <= b <= |data| && Streams(data, at, main).Some? && Streams(data, at, main).value.next <= b
    ensures Streams(data[a..b], at - a, main) == Some(Moved(Streams(data, at, main).value, a))
  {
    hide Number32;
    if main / 0x10 % 2 != 0 {
      Number32IsLocal(data, a, b, at);
      Number32IsLocal(data, a, b, Number32(data, at).value.next);
    }
  }

  lemma PropsLocal(data: seq<Byte>, a: nat, b: nat, at: nat, main: Byte)
    requires a <= at <= b <= |data| && Props(data, at, a, main).Some? && Props(data, at, a, main).value.next <= b
    ensures Props(data[a..b], at - a, 0, main) == Some(Moved(Props(data, at, a, main).value, a))
  {
    hide Number32;
    if main / 0x20 % 2 != 0 {
      Number32IsLocal(data, a, b, at);
    }
  }

  lemma CoderLocal(data: seq<Byte>, a: nat, b: nat, at: nat)
    requires a <= at && a <= b <= |data| && OneCoder(data, at, a).Some? && OneCoder(data, at, a).value.next <= b
    ensures OneCoder(data[a..b], at - a, 0) == Some(Moved(OneCoder(data, at, a).value, a))
  {
    hide Streams, Props, BigEndian;
    var main, idSize := data[at], data[at] % 0x10;
    var s := Streams(data, at + 1 + idSize, main).value;
    assert data[a..b][at - a] == data[at];
    StreamsLocal(data, a, b, at + 1 + idSize, main);
    PropsLocal(data, a, b, s.next, main);
    SliceOfSlice(data, a, b, at - a + 1, at - a + 1 + idSize);
  }

  lemma {:induction false} CodersLocal(data: seq<Byte>, a: nat, b: nat, at: nat, n: nat, acc: seq<Coder>)
    requires a <= at && a <= b <= |data|
    requires Coders(data, at, a, n, acc).Some? && Coders(data, at, a, n, acc).value.next <= b
    ensures Coders(data[a..b], at - a, 0, n, acc) == Some(Moved(Coders(data, at, a, n, acc).value, a))
    decreases n
  {
    hide OneCoder;
    if n > 0 {
      var c := OneCoder(data, at, a).value;
      CoderLocal(data, a, b, at);
      CodersLocal(data, a, b, c.next, n - 1, acc + [c.value]);
    }
  }

  lemma {:induction false} BondsLocal(data: seq<Byte>, a: nat, b: nat, at: nat, n: nat, streams: nat, coders: nat, acc: Bound)
    requires a <= at && a <= b <= |data|
    requires var r := Bonds(data, at, n, streams, coders, acc);
             r.Some? && r.value.next <= b
    ensures Bonds(data[a..b], at - a, n, streams, coders, acc) ==
            Some(Moved(Bonds(data, at, n, streams, coders, acc).value, a))
    decreases n
  {
    hide Number32;
    if n > 0 {
      var i := Number32(data, at).value;
      var o := Number32(data, i.next).value;
      Number32IsLocal(data, a, b, at);
      Number32IsLocal(data, a, b, i.next);
      BondsLocal(data, a, b, o.next, n - 1, streams, coders,
                 Bound(acc.bonds + [Bond(i.value, o.value)], acc.usedIn + {i.value}, acc.usedOut + {o.value}));
    }
  }

  lemma {:induction false} PacksLocal(data: seq<Byte>, a: nat, b: nat, at: nat, n: nat, streams: nat, used: set<nat>, acc: seq<nat>)
    requires a <= at && a <= b <= |data|
    requires Packs(data, at, n, streams, used, acc).Some? && Packs(data, at, n, streams, used, acc).value.next <= b
    ensures Packs(data[a..b], at - a, n, streams, used, acc) ==
            Some(Moved(Packs(data, at, n, streams, used, acc).value, a))
    decreases n
  {
    hide Number32;
    if n > 0 {
      var i := Number32(data, at).value;
      Number32IsLocal(data, a, b, at);
      PacksLocal(data, a, b, i.next, n - 1, streams, used + {i.value}, acc + [i.value]);
    }
  }

  lemma BindingsLocal(data: seq<Byte>, a: nat, b: nat, at: nat, coders: seq<Coder>)
    requires a <= at && a <= b <= |data| && coders != []
    requires Bindings(data, at, coders).Some? && Bindings(data, at, coders).value.next <= b
    ensures Bindings(data[a..b], at - a, coders) == Some(Moved(Bindings(data, at, coders).value, a))
  {
    hide Bonds, Packs, Total, FirstUnused;
    var streams, n := Total(coders), |coders| - 1;
    var r := Bonds(data, at, n, streams, |coders|, Bound([], {}, {})).value;
    BondsLocal(data, a, b, at, n, streams, |coders|, Bound([], {}, {}));
    if streams - n != 1 {
      PacksLocal(data, a, b, r.next, streams - n, streams, r.value.usedIn, []);
    }
  }

  /** The slice that a folder occupies parses to the same folder, and to its end. */
  lemma FolderIsItsSlice(data: seq<Byte>, at: nat)
    requires Syntax(data, at).Some? && Syntax(data, at).value.next <= |data|
    ensures var f := Syntax(data, at).value;
            Syntax(data[at..f.next], 0) == Some(At(f.value, f.next - at))
  {
    hide Coders, Bindings, Number32;
    var b := Syntax(data, at).value.next;
    var n := Number32(data, at).value;
    var cs := Coders(data, n.next, at, n.value, []).value;
    Number32IsLocal(data, at, b, at);
    CodersLocal(data, at, b, n.next, n.value, []);
    BindingsLocal(data, at, b, cs.next, cs.value);
  }
}
