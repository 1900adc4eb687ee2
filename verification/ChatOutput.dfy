/**
 What a chat prints: generated tokens go through the stop filter, and what it
 lets through goes to the terminal filter.
 */
module ChatOutput {
  import opened Prelude
  import opened Utf8
  import opened SafeTokenWriters
  import Stops = StoppingTokenWriters

  /** The callback chain of one generation with both flushes at its end. */
  method Print(tokens: seq<seq<byte>>, stops: seq<seq<byte>>) returns (shown: seq<byte>)
    requires Stops.NonEmpty(stops)
    ensures shown == Render(Stops.Cut(Stops.Accepted(tokens, stops), stops)) && TerminalSafe(shown)
    ensures Stops.ChunkSafe(stops) ==> shown == Render(Stops.Cut(Stops.Joined(tokens), stops))
  {
    hide Render, Stops.Cut;
    var stopper := new Stops.StoppingTokenWriter(stops);
    var renderer := new SafeTokenWriter();
    for i := 0 to |tokens|
      invariant stopper.Valid() && renderer.Valid() && fresh(stopper) && fresh(renderer)
      invariant stopper.stops == stops && stopper.consumed == Stops.Accepted(tokens[..i], stops)
      invariant renderer.shown == [] && renderer.consumed == stopper.output
    {
      assert tokens[..i + 1][..i] == tokens[..i];
      var before := stopper.output;
      stopper.Write(tokens[i]);
      renderer.Write(stopper.output[|before|..]);
    }
    assert tokens[..|tokens|] == tokens;
    var before := stopper.output;
    stopper.Flush();
    renderer.Write(stopper.output[|before|..]);
    assert renderer.consumed == before + stopper.output[|before|..] == stopper.output;
    assert [] + Render(renderer.consumed) == Render(renderer.consumed);
    renderer.Flush();
    shown := renderer.output;
    if Stops.ChunkSafe(stops) { Stops.ChunkSafeIsExact(tokens, stops); }
  }
}
