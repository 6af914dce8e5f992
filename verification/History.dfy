/** Copying from what has been written so far, as all LZ77 formats do. */
module History {
  import opened LowBits

  /** `past` after copying `n` bytes, one by one, from `back` positions before its end. */
  function Copied(past: seq<Byte>, back: nat, n: nat): (r: seq<Byte>)
    requires 1 <= back <= |past|
    ensures |r| == |past| + n && past <= r
    decreases n
  {
    if n == 0 then past
    else
      var p := Copied(past, back, n - 1);
      p + [p[|p| - back]]
  }

  /** A match repeats what lies `back` before it, its own beginning included when it is longer than that. */
  lemma {:induction false} CopiedRepeats(past: seq<Byte>, back: nat, n: nat)
    requires 1 <= back <= |past|
    ensures forall i :: |past| <= i < |past| + n ==> Copied(past, back, n)[i] == Copied(past, back, n)[i - back]
    decreases n
  {
    if n > 0 {
      CopiedRepeats(past, back, n - 1);
    }
  }

  /** Copying can be interrupted. */
  lemma {:induction false} CopiedInParts(past: seq<Byte>, back: nat, m: nat, n: nat)
    requires 1 <= back <= |past|
    ensures Copied(Copied(past, back, m), back, n) == Copied(past, back, m + n)
    decreases n
  {
    if n > 0 {
      CopiedInParts(past, back, m, n - 1);
    }
  }

  lemma CopiedNext(past: seq<Byte>, back: nat, n: nat)
    requires 1 <= back <= |past|
    ensures var p := Copied(past, back, n);
            Copied(past, back, n + 1) == p + [p[|p| - back]]
  {
  }

  lemma CopiedNone(past: seq<Byte>, back: nat)
    requires 1 <= back <= |past|
    ensures Copied(past, back, 0) == past
  {
  }
}
