/** However a stream is cut into calls, the resumable decoder produces what the whole-stream decoder does. */
module InflateDriver {
  import opened LowBits
  import opened DeflateSteps
  import opened InflateLookup
  import opened InflateInput
  import opened InflateWindow
  import I = Inflate
  import D = Deflate

  lemma {:induction false} OutputGrows(c: D.Conf)
    ensures c.out <= D.Run(c).out
    decreases |c.rest|, D.Rank(c.mode)
  {
    match D.Step(c)
    case Halt(_) =>
    case Go(d) =>
      OneStepGrows(c);
      OutputGrows(d);
  }

  lemma OneStepGrows(c: D.Conf)
    ensures D.Step(c).Go? ==> c.out <= D.Step(c).conf.out
  {
  }

  lemma StuckEnds(c: D.Conf)
    requires Stuck(c)
    ensures D.Run(c).out == c.out && (D.Run(c).end == D.Starved || D.Run(c).end == D.Corrupt)
  {
    hide D.Step;
    D.RunStep(c);
  }

  /** One call: how many more bytes of the stream the caller has at hand, and how large its output buffer is. */
  datatype Call = Call(more: nat, capacity: nat)

  lemma OutputIsPrefix(m: I.Inflate)
    requires m.Valid()
    ensures m.out.history == m.conf.out <= D.Run(m.conf).out
    ensures Stuck(m.conf) ==> m.out.history == D.Run(m.conf).out &&
                              (D.Run(m.conf).end == D.Starved || D.Run(m.conf).end == D.Corrupt)
  {
    hide D.Run, D.Step, I.Inflate.StageOk, Stuck;
    OutputGrows(m.conf);
    if Stuck(m.conf) {
      StuckEnds(m.conf);
    }
  }

  lemma Cut(stream: seq<Byte>, a: nat, used: nat, b: nat)
    requires a + used <= b <= |stream|
    ensures stream[a..] == stream[a..b] + stream[b..]
    ensures stream[a..b][used..] + stream[b..] == stream[a + used..]
  {
    assert stream[a..b][used..] == stream[a + used..b];
  }

  method Start(stream: seq<Byte>) returns (m: I.Inflate)
    requires D.Decode(stream).end != D.Outside
    ensures m.Valid() && m.reader.unread == stream && m.out.history == [] && D.Run(m.conf) == D.Decode(stream)
    ensures fresh(m) && fresh(m.clens) && fresh(m.treeLengths) && fresh(m.treeDists)
    ensures fresh(m.reader) && fresh(m.out) && fresh(m.out.window)
  {
    hide D.Run, D.Step;
    m := new I.Inflate(stream);
  }

  /** One more call. */
  method Next(m: I.Inflate, ghost stream: seq<Byte>, ghost at: nat, input: seq<Byte>, ghost supplied: nat, capacity: nat)
    returns (res: Status, produced: seq<Byte>, used: nat)
    requires m.Valid() && at <= supplied <= |stream| && input == stream[at..supplied]
    requires m.reader.unread == stream[at..] && D.Run(m.conf) == D.Decode(stream)
    modifies m, m.clens, m.treeLengths, m.treeDists, m.reader, m.out, m.out.window
    ensures m.out.history == old(m.out.history) + produced <= D.Decode(stream).out
    ensures D.Run(m.conf) == D.Decode(stream)
    ensures res == Eos ==> D.Decode(stream).end == D.Finished && m.out.history == D.Decode(stream).out
    ensures res == Error ==> D.Decode(stream).end == D.Corrupt && m.out.history == D.Decode(stream).out
    ensures res == NotDone ==> m.Valid() && at + used <= supplied && m.reader.unread == stream[at + used..]
    ensures res == NotDone && supplied == |stream| && |produced| != capacity ==>
              && m.out.history == D.Decode(stream).out
              && (D.Decode(stream).end == D.Starved || D.Decode(stream).end == D.Corrupt)
  {
    hide D.Run, D.Step, I.Inflate.StageOk, Stuck, Emits, Reader.Valid, Output.Valid;
    Cut(stream, at, 0, supplied);
    res, produced, used := m.Process(input, stream[supplied..], capacity);
    if res != Error {
      OutputIsPrefix(m);
      Cut(stream, at, used, supplied);
    }
  }

  /** Makes the calls, each with all the input at hand that was not used, until one of them is final. */
  method Drive(stream: seq<Byte>, calls: seq<Call>)
    returns (res: Status, output: seq<Byte>, supplied: nat, full: bool)
    requires D.Decode(stream).end != D.Outside
    ensures output <= D.Decode(stream).out
    ensures res == Eos ==> D.Decode(stream).end == D.Finished && output == D.Decode(stream).out
    ensures res == Error ==> D.Decode(stream).end == D.Corrupt && output == D.Decode(stream).out
    ensures res == NotDone && supplied == |stream| && !full ==>
              && output == D.Decode(stream).out
              && (D.Decode(stream).end == D.Starved || D.Decode(stream).end == D.Corrupt)
  {
    hide D.Decode, D.Run, I.Inflate.Valid;
    var m := Start(stream);
    res, output, supplied, full := NotDone, [], 0, true;
    var at: nat := 0;
    for i := 0 to |calls|
      invariant res == NotDone && at <= supplied <= |stream| && m.out.history == output <= D.Decode(stream).out
      invariant m.Valid() && m.reader.unread == stream[at..] && D.Run(m.conf) == D.Decode(stream)
      invariant supplied == |stream| && !full ==>
                  && output == D.Decode(stream).out
                  && (D.Decode(stream).end == D.Starved || D.Decode(stream).end == D.Corrupt)
      invariant fresh(m) && fresh(m.clens) && fresh(m.treeLengths) && fresh(m.treeDists)
      invariant fresh(m.reader) && fresh(m.out) && fresh(m.out.window)
    {
      supplied := if supplied + calls[i].more < |stream| then supplied + calls[i].more else |stream|;
      var produced, used;
      res, produced, used := Next(m, stream, at, stream[at..supplied], supplied, calls[i].capacity);
      output := output + produced;
      full := |produced| == calls[i].capacity;
      if res != NotDone {
        return;
      }
      at := at + used;
    }
  }
}
