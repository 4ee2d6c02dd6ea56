// What is kept of an agent's stderr (rust/crates/oga-acp/src/transport.rs).
module StderrTail {
  import opened Basics
  import opened Lists

  function LastOf(bytes: seq<byte>, limit: nat): seq<byte> {
    if |bytes| > limit then bytes[|bytes| - limit..] else bytes
  }

  class StderrTail {
    const limit: nat
    var text: seq<byte>
    var truncated: bool

    constructor (limit: nat)
      ensures this.limit == limit && text == [] && !truncated
    {
      this.limit, text, truncated := limit, [], false;
    }

    method Push(chunk: seq<byte>)
      modifies this`text, this`truncated
      ensures text == LastOf(old(text) + chunk, limit)
      ensures truncated <==> old(truncated) || |old(text) + chunk| > limit
    {
      hide Concat;
      text := text + chunk;
      if |text| > limit {
        var excess := |text| - limit;
        text := text[excess..];
        truncated := true;
      }
    }

    // However the agent's words are cut into reads, the last of them are kept, and it is
    // said whether that is all of them.
    method Drain(chunks: seq<seq<byte>>)
      requires text == [] && !truncated
      modifies this`text, this`truncated
      ensures text == LastOf(Concat(chunks), limit)
      ensures truncated <==> |Concat(chunks)| > limit
    {
      for i := 0 to |chunks|
        invariant text == LastOf(Concat(chunks[..i]), limit)
        invariant truncated <==> |Concat(chunks[..i])| > limit
      {
        assert chunks[..i + 1][..i] == chunks[..i];
        LastOfLast(Concat(chunks[..i]), chunks[i], limit);
        Push(chunks[i]);
      }
      assert chunks[..|chunks|] == chunks;
    }
  }

  // Dropping what no longer fits as it comes loses nothing that the end would keep.
  lemma {:induction false} LastOfLast(bytes: seq<byte>, more: seq<byte>, limit: nat)
    ensures LastOf(LastOf(bytes, limit) + more, limit) == LastOf(bytes + more, limit)
    ensures |LastOf(bytes, limit) + more| > limit || |bytes| > limit <==> |bytes + more| > limit
  {
    var kept := LastOf(bytes, limit);
    if |bytes| > limit {
      assert bytes == bytes[..|bytes| - limit] + kept;
      assert bytes + more == bytes[..|bytes| - limit] + (kept + more);
    }
  }
}
