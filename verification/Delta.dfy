/** The delta filter: each byte is replaced by its difference from the byte `delta` places earlier. */
module Delta {
  import opened Modular
  import opened LowBits

  const STATE_SIZE: nat := 256

  function Add(a: Byte, b: Byte): Byte { (a + b) % 256 }

  function Sub(a: Byte, b: Byte): Byte { (a - b) % 256 }

  lemma AddSub(a: Byte, b: Byte)
    ensures Add(Sub(a, b), b) == a && Sub(Add(a, b), b) == a
  {
    Remainder(a - b, 256, if a >= b then 0 else -1, if a >= b then a - b else a - b + 256);
    Remainder(a + b, 256, if a + b < 256 then 0 else 1, if a + b < 256 then a + b else a + b - 256);
  }

  // ---------------------------------------------------------------- the filter on whole messages

  /** The state is the end of the raw data so far. */
  function NextState(state: seq<Byte>, raw: seq<Byte>): (r: seq<Byte>)
    ensures |r| == |state|
  {
    (state + raw)[|raw|..]
  }

  function Encoded(state: seq<Byte>, raw: seq<Byte>): (r: seq<Byte>)
    requires |state| > 0
    ensures |r| == |raw| && forall i :: 0 <= i < |raw| ==> r[i] == Sub(raw[i], (state + raw)[i])
  {
    seq(|raw|, i requires 0 <= i < |raw| => Sub(raw[i], (state + raw)[i]))
  }

  /** Every byte is the sum, modulo 256, of its code and the byte `|state|` places before it, which for the first bytes
      is in the state. */
  lemma CodesAreDifferences(state: seq<Byte>, raw: seq<Byte>, i: nat)
    requires |state| > 0 && i < |raw|
    ensures var before: nat := if i < |state| then state[i] else raw[i - |state|];
            raw[i] == (before + Encoded(state, raw)[i]) % 256
  {
    var before: nat := if i < |state| then state[i] else raw[i - |state|];
    assert (state + raw)[i] == before;
    AddSub(raw[i], before);
  }

  function Decoded(state: seq<Byte>, coded: seq<Byte>): (r: seq<Byte>)
    requires |state| > 0
    ensures |r| == |coded|
    decreases |coded|
  {
    if coded == [] then []
    else
      var n := |coded| - 1;
      var r := Decoded(state, coded[..n]);
      r + [Add(coded[n], (state + r)[n])]
  }

  /** Decoding is the one solution of the equations of the filter. */
  lemma {:induction false} DecodedIs(state: seq<Byte>, coded: seq<Byte>, raw: seq<Byte>)
    requires |state| > 0 && |raw| == |coded|
    ensures raw == Decoded(state, coded) <==> forall i :: 0 <= i < |raw| ==> raw[i] == Add(coded[i], (state + raw)[i])
    decreases |coded|
  {
    hide Add;
    if coded != [] {
      var n := |coded| - 1;
      var r := Decoded(state, coded[..n]);
      DecodedIs(state, coded[..n], raw[..n]);
      assert raw == raw[..n] + [raw[n]];
      forall i | 0 <= i <= n ensures (state + raw)[i] == (state + raw[..n])[i] {
      }
      if raw == Decoded(state, coded) {
        assert raw[..n] == r;
        forall i | 0 <= i < |raw| ensures raw[i] == Add(coded[i], (state + raw)[i]) {
          if i < n {
            assert raw[..n][i] == Add(coded[..n][i], (state + raw[..n])[i]);
          }
        }
      }
      if forall i :: 0 <= i < |raw| ==> raw[i] == Add(coded[i], (state + raw)[i]) {
        forall i | 0 <= i < n ensures raw[..n][i] == Add(coded[..n][i], (state + raw[..n])[i]) {
          assert raw[i] == Add(coded[i], (state + raw)[i]);
        }
        assert raw[n] == Add(coded[n], (state + raw)[n]);
      }
    }
  }

  /** Decoding undoes encoding, and encoding undoes decoding, from any state. */
  lemma RoundTrip(state: seq<Byte>, data: seq<Byte>)
    requires |state| > 0
    ensures Decoded(state, Encoded(state, data)) == data
    ensures Encoded(state, Decoded(state, data)) == data
  {
    hide Decoded, Add, Sub;
    var e := Encoded(state, data);
    forall i | 0 <= i < |data| ensures data[i] == Add(e[i], (state + data)[i]) {
      AddSub(data[i], (state + data)[i]);
    }
    DecodedIs(state, e, data);
    var d := Decoded(state, data);
    DecodedIs(state, data, d);
    var back := Encoded(state, d);
    forall i | 0 <= i < |data| ensures back[i] == data[i] {
      AddSub(data[i], (state + d)[i]);
    }
  }

  /** The state carries what the next piece needs. */
  lemma StateOfConcat(state: seq<Byte>, a: seq<Byte>, b: seq<Byte>)
    ensures NextState(state, a + b) == NextState(NextState(state, a), b)
    ensures forall i :: 0 <= i < |b| + |state| ==> (NextState(state, a) + b)[i] == (state + (a + b))[|a| + i]
  {
  }

  /** Encoding pieces with the carried state encodes the whole. */
  lemma EncodeInPieces(state: seq<Byte>, a: seq<Byte>, b: seq<Byte>)
    requires |state| > 0
    ensures Encoded(state, a + b) == Encoded(state, a) + Encoded(NextState(state, a), b)
  {
    hide Sub;
    StateOfConcat(state, a, b);
    hide NextState;
    var whole, left, right := Encoded(state, a + b), Encoded(state, a), Encoded(NextState(state, a), b);
    forall i | 0 <= i < |a| + |b| ensures whole[i] == (left + right)[i] {
      if i < |a| {
        assert (state + (a + b))[i] == (state + a)[i];
      } else {
        assert (NextState(state, a) + b)[i - |a|] == (state + (a + b))[|a| + (i - |a|)];
      }
    }
  }

  /** Decoding pieces with the carried state decodes the whole. */
  lemma DecodeInPieces(state: seq<Byte>, a: seq<Byte>, b: seq<Byte>)
    requires |state| > 0
    ensures var x := Decoded(state, a);
            Decoded(state, a + b) == x + Decoded(NextState(state, x), b)
  {
    hide Decoded, Encoded, NextState;
    var x := Decoded(state, a);
    var y := Decoded(NextState(state, x), b);
    RoundTrip(state, a);
    RoundTrip(NextState(state, x), b);
    EncodeInPieces(state, x, y);
    RoundTrip(state, x + y);
  }

  // ---------------------------------------------------------------- in place

  /** `state[..delta]` before, after, and the data before. */
  ghost predicate StateIs(after: seq<Byte>, state: seq<Byte>, raw: seq<Byte>) {
    |after| == |state| && forall k :: 0 <= k < |state| ==> after[k] == (state + raw)[|raw| + k]
  }

  lemma StateIsNext(after: seq<Byte>, state: seq<Byte>, raw: seq<Byte>)
    requires StateIs(after, state, raw)
    ensures after == NextState(state, raw)
  {
  }

  /** At most `delta` bytes: the state is rotated. */
  method EncodeShort(state: array<Byte>, delta: nat, data: array<Byte>)
    requires 1 <= delta <= state.Length && 1 <= data.Length <= delta && state != data
    modifies state, data
    ensures data[..] == Encoded(old(state[..delta]), old(data[..]))
    ensures state[..delta] == NextState(old(state[..delta]), old(data[..])) && state[delta..] == old(state[delta..])
  {
    hide Encoded, NextState;
    ghost var s, raw := state[..delta], data[..];
    var temp := new Byte[delta](i requires 0 <= i < delta reads state => state[i]);
    assert temp[..] == s;
    SubtractState(temp, data);
    RotateInto(state, temp, data.Length, s, raw);
  }

  /** Subtracts the state from as many bytes, which take its place. */
  method SubtractState(temp: array<Byte>, data: array<Byte>)
    requires data.Length <= temp.Length && temp != data && temp.Length > 0
    modifies temp, data
    ensures data[..] == Encoded(old(temp[..]), old(data[..])) && temp[..] == old(data[..]) + old(temp[data.Length..])
  {
    hide Sub;
    ghost var s, raw := temp[..], data[..];
    for i := 0 to data.Length
      invariant forall k :: 0 <= k < i ==> data[k] == Sub(raw[k], s[k]) && temp[k] == raw[k]
      invariant forall k :: i <= k < data.Length ==> data[k] == raw[k]
      invariant forall k :: i <= k < temp.Length ==> temp[k] == s[k]
    {
      var b := data[i];
      data[i] := Sub(b, temp[i]);
      temp[i] := b;
    }
  }

  /** The state starts with the place after the last byte that was written into `temp`, and goes round. */
  method RotateInto(state: array<Byte>, temp: array<Byte>, n: nat, ghost s: seq<Byte>, ghost raw: seq<Byte>)
    requires 1 <= n <= temp.Length <= state.Length && temp != state && |raw| == n && |s| == temp.Length
    requires temp[..] == raw + s[n..]
    modifies state
    ensures state[..temp.Length] == NextState(s, raw) && state[temp.Length..] == old(state[temp.Length..])
  {
    var i := n;
    for k := 0 to temp.Length
      invariant i == if n + k <= temp.Length then n + k else n + k - temp.Length
      invariant state[temp.Length..] == old(state[temp.Length..])
      invariant forall j :: 0 <= j < k ==> state[j] == (s + raw)[|raw| + j]
    {
      if i == temp.Length {
        i := 0;
      }
      Rotated(s, raw, k, i);
      state[k] := temp[i];
      i := i + 1;
    }
    StateIsNext(state[..temp.Length], s, raw);
  }

  lemma Rotated(s: seq<Byte>, raw: seq<Byte>, k: nat, i: nat)
    requires |raw| <= |s| && k < |s| && i < |s| && i == if |raw| + k < |s| then |raw| + k else |raw| + k - |s|
    ensures (raw + s[|raw|..])[i] == (s + raw)[|raw| + k]
  {
  }

  /** The state becomes the last `delta` bytes. */
  method SaveTail(state: array<Byte>, delta: nat, data: array<Byte>)
    requires 1 <= delta <= state.Length && delta <= data.Length && state != data
    modifies state
    ensures state[..delta] == NextState(old(state[..delta]), data[..]) && state[delta..] == old(state[delta..])
  {
    ghost var s, raw, size := state[..delta], data[..], data.Length;
    for i := 0 to delta
      invariant forall k :: 0 <= k < i ==> state[k] == raw[size - delta + k]
      invariant state[delta..] == old(state[delta..])
    {
      state[i] := data[data.Length - delta + i];
    }
    StateIsNext(state[..delta], s, raw);
  }

  /** From the end backwards, so that the bytes to be subtracted are still there; two at a time. */
  method SubtractBack(delta: nat, data: array<Byte>)
    requires 1 <= delta < data.Length
    modifies data
    ensures data[..delta] == old(data[..delta])
    ensures forall k :: delta <= k < data.Length ==> data[k] == Sub(old(data[k]), old(data[k - delta]))
  {
    hide Sub;
    ghost var raw := data[..];
    var p := data.Length;
    if (p - delta) % 2 == 1 {
      p := p - 1;
      data[p] := Sub(data[p], data[p - delta]);
    }
    while p != delta
      invariant delta <= p <= data.Length && (p - delta) % 2 == 0
      invariant forall k :: 0 <= k < p ==> data[k] == raw[k]
      invariant forall k :: p <= k < data.Length ==> data[k] == Sub(raw[k], raw[k - delta])
      decreases p
    {
      p := p - 1;
      data[p] := Sub(data[p], data[p - delta]);
      p := p - 1;
      data[p] := Sub(data[p], data[p - delta]);
    }
  }

  /** More than `delta` bytes. */
  method EncodeLong(state: array<Byte>, delta: nat, data: array<Byte>)
    requires 1 <= delta <= state.Length && delta < data.Length && state != data
    modifies state, data
    ensures data[..] == Encoded(old(state[..delta]), old(data[..]))
    ensures state[..delta] == NextState(old(state[..delta]), old(data[..])) && state[delta..] == old(state[delta..])
  {
    hide Sub, NextState, Encoded;
    ghost var s, raw := state[..delta], data[..];
    var temp := new Byte[delta](i requires 0 <= i < delta reads state => state[i]);
    SaveTail(state, delta, data);
    SubtractBack(delta, data);
    assert forall k :: 0 <= k < delta ==> data[k] == raw[k];
    SubtractFirst(temp, data);
    EncodedFrom(s, raw, data[..]);
  }

  /** The first bytes are coded by the state, the others by the bytes before them. */
  lemma EncodedFrom(s: seq<Byte>, raw: seq<Byte>, out: seq<Byte>)
    requires 0 < |s| <= |raw| == |out|
    requires forall k :: 0 <= k < |s| ==> out[k] == Sub(raw[k], s[k])
    requires forall k :: |s| <= k < |raw| ==> out[k] == Sub(raw[k], raw[k - |s|])
    ensures out == Encoded(s, raw)
  {
    hide Sub;
  }

  /** Subtracts the saved state from the first bytes. */
  method SubtractFirst(temp: array<Byte>, data: array<Byte>)
    requires temp.Length <= data.Length && temp != data
    modifies data
    ensures forall k :: 0 <= k < temp.Length ==> data[k] == Sub(old(data[k]), temp[k])
    ensures forall k :: temp.Length <= k < data.Length ==> data[k] == old(data[k])
  {
    hide Sub;
    var p := temp.Length;
    while p != 0
      invariant 0 <= p <= temp.Length
      invariant forall k :: p <= k < temp.Length ==> data[k] == Sub(old(data[k]), temp[k])
      invariant forall k :: 0 <= k < data.Length && !(p <= k < temp.Length) ==> data[k] == old(data[k])
      decreases p
    {
      p := p - 1;
      data[p] := Sub(data[p], temp[p]);
    }
  }

  /** Encodes in place, and moves the state on. */
  method Encode(state: array<Byte>, delta: nat, data: array<Byte>)
    requires 1 <= delta <= STATE_SIZE <= state.Length && state != data
    modifies state, data
    ensures data[..] == Encoded(old(state[..delta]), old(data[..]))
    ensures state[..delta] == NextState(old(state[..delta]), old(data[..])) && state[delta..] == old(state[delta..])
  {
    if data.Length == 0 {
      return;
    }
    if data.Length <= delta {
      EncodeShort(state, delta, data);
    } else {
      EncodeLong(state, delta, data);
    }
  }

  lemma DecodedNext(state: seq<Byte>, coded: seq<Byte>, i: nat, r: seq<Byte>)
    requires |state| > 0 && i < |coded| && r == Decoded(state, coded[..i])
    ensures Decoded(state, coded[..i + 1]) == r + [Add(coded[i], (state + r)[i])]
  {
    assert coded[..i + 1][..i] == coded[..i];
  }

  /** Adds up the first bytes, from the state. */
  method AddState(state: array<Byte>, delta: nat, data: array<Byte>, n: nat)
    requires 1 <= delta <= state.Length && n <= delta && n <= data.Length && state != data
    modifies data
    ensures data[..n] == Decoded(state[..delta], old(data[..n])) && data[n..] == old(data[n..])
  {
    hide Add, Decoded;
    ghost var s, coded := state[..delta], data[..];
    DecodedNothing(s);
    for i := 0 to n
      invariant data[..i] == Decoded(s, coded[..i]) && data[i..] == coded[i..] && state[..] == old(state[..])
    {
      DecodedNext(s, coded, i, data[..i]);
      assert data[i] == coded[i];
      data[i] := Add(data[i], state[i]);
    }
  }

  /** Adds up the other bytes, from the data itself. */
  method AddBack(state: array<Byte>, delta: nat, data: array<Byte>, ghost coded: seq<Byte>)
    requires 1 <= delta <= state.Length && delta <= data.Length == |coded| && state != data
    requires data[..delta] == Decoded(state[..delta], coded[..delta]) && data[delta..] == coded[delta..]
    modifies data
    ensures data[..] == Decoded(state[..delta], coded)
  {
    hide Add, Decoded;
    ghost var s := state[..delta];
    for i := delta to data.Length
      invariant data[..i] == Decoded(s, coded[..i]) && data[i..] == coded[i..] && state[..] == old(state[..])
    {
      DecodedNext(s, coded, i, data[..i]);
      assert data[i] == coded[i];
      data[i] := Add(data[i], data[i - delta]);
    }
    assert data[..data.Length] == data[..] && coded[..data.Length] == coded;
  }

  lemma DecodedNothing(state: seq<Byte>)
    requires |state| > 0
    ensures Decoded(state, []) == []
  {
  }

  /** At most `delta` bytes: the state is shifted. */
  method ShiftState(state: array<Byte>, delta: nat, data: array<Byte>)
    requires 1 <= delta <= state.Length && 1 <= data.Length <= delta && state != data
    modifies state
    ensures state[..delta] == NextState(old(state[..delta]), data[..]) && state[delta..] == old(state[delta..])
  {
    ghost var s, raw := state[..delta], data[..];
    var size := data.Length;
    var k := 0;
    while k + size != delta
      invariant 0 <= k <= delta - size && state[delta..] == old(state[delta..])
      invariant forall j :: 0 <= j < k ==> state[j] == s[j + size]
      invariant forall j :: k <= j < delta ==> state[j] == s[j]
    {
      state[k] := state[k + size];
      k := k + 1;
    }
    for i := 0 to size
      invariant state[delta..] == old(state[delta..])
      invariant forall j :: 0 <= j < delta - size + i ==> state[j] == (s + raw)[size + j]
    {
      state[k + i] := data[i];
    }
    StateIsNext(state[..delta], s, raw);
  }

  /** Decodes in place, and moves the state on. */
  method Decode(state: array<Byte>, delta: nat, data: array<Byte>)
    requires 1 <= delta <= STATE_SIZE <= state.Length && state != data
    modifies state, data
    ensures data[..] == Decoded(old(state[..delta]), old(data[..]))
    ensures state[..delta] == NextState(old(state[..delta]), data[..]) && state[delta..] == old(state[delta..])
  {
    if data.Length == 0 {
      return;
    }
    hide Decoded, NextState;
    ghost var coded := data[..];
    if data.Length <= delta {
      AddState(state, delta, data, data.Length);
      assert data[..data.Length] == data[..] && coded[..data.Length] == coded;
      ShiftState(state, delta, data);
    } else {
      AddState(state, delta, data, delta);
      AddBack(state, delta, data, coded);
      SaveTail(state, delta, data);
    }
  }
}
