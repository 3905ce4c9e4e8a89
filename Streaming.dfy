/**
 * Reassembly of the streamed reply: the content of the first choice of each
 * chunk is collected when it is non-empty, and the pieces are concatenated
 * in order.  A failing request or stream, or a chunk without choices (which
 * makes `choices[0]` raise), yields no command.
 */
module Streaming {
  import opened Wrappers

  /** One streamed chunk: the `delta.content` of each of its choices, `None` for a missing content. */
  datatype Chunk = Chunk(choices: seq<Option<string>>)

  /** The reply as delivered: its chunks, and whether the request or the stream raises after them. */
  datatype Stream = Stream(chunks: seq<Chunk>, fails: bool)

  /** Whether the chunk's first choice carries content that the loop keeps. */
  predicate Kept(c: Chunk)
    requires c.choices != []
  {
    c.choices[0].Some? && c.choices[0].value != ""
  }

  /** Whether some chunk has no choices. */
  predicate Broken(cs: seq<Chunk>)
  {
    exists k :: 0 <= k < |cs| && cs[k].choices == []
  }

  /** The fragments collected from `cs`, in order. */
  function Fragments(cs: seq<Chunk>): seq<string>
    requires !Broken(cs)
  {
    if cs == [] then []
    else
      var init := cs[..|cs| - 1];
      var last := cs[|cs| - 1];
      assert !Broken(init) by {
        forall k | 0 <= k < |init| ensures init[k].choices != [] {
          assert init[k] == cs[k];
        }
      }
      Fragments(init) + (if Kept(last) then [last.choices[0].value] else [])
  }

  /** `"".join(parts)`. */
  function Concat(parts: seq<string>): string
  {
    if parts == [] then "" else Concat(parts[..|parts| - 1]) + parts[|parts| - 1]
  }

  /** `ai_cmd` for a stream, or `None` when the stream raises. */
  function Reassembled(s: Stream): Option<string>
  {
    if s.fails || Broken(s.chunks) then None else Some(Concat(Fragments(s.chunks)))
  }

  /** The streaming loop: the pieces are appended to a list, then joined. */
  method Reassemble(s: Stream) returns (r: Option<string>)
    ensures r == Reassembled(s)
  {
    var pieces: seq<string> := [];
    for i := 0 to |s.chunks|
      invariant !Broken(s.chunks[..i])
      invariant pieces == Fragments(s.chunks[..i])
    {
      var chunk := s.chunks[i];
      if chunk.choices == [] {
        assert s.chunks[i].choices == [];
        return None;
      }
      assert s.chunks[..i + 1][..i] == s.chunks[..i];
      ghost var seen := s.chunks[..i + 1];
      assert !Broken(seen) by {
        forall k | 0 <= k < i + 1 ensures seen[k].choices != [] {
          if k < i {
            assert seen[k] == s.chunks[..i][k];
          }
        }
      }
      var content := chunk.choices[0];
      if content.Some? && content.value != "" {
        pieces := pieces + [content.value];
      }
    }
    assert s.chunks[..|s.chunks|] == s.chunks;
    if s.fails {
      return None;
    }
    r := Some(Concat(pieces));
  }

  /** Collection distributes over a split of the chunks: fragments keep the stream's order. */
  lemma {:induction false} FragmentsAppend(a: seq<Chunk>, b: seq<Chunk>)
    requires !Broken(a + b)
    ensures !Broken(a) && !Broken(b)
    ensures Fragments(a + b) == Fragments(a) + Fragments(b)
    decreases |b|
  {
    var c := a + b;
    forall k | 0 <= k < |a| ensures a[k].choices != [] {
      assert a[k] == c[k];
    }
    forall k | 0 <= k < |b| ensures b[k].choices != [] {
      assert b[k] == c[|a| + k];
    }
    if b == [] {
      assert c == a;
    } else {
      assert c[..|c| - 1] == a + b[..|b| - 1];
      assert c[|c| - 1] == b[|b| - 1];
      FragmentsAppend(a, b[..|b| - 1]);
    }
  }

  /** Every collected fragment is non-empty, and each comes from a chunk's first choice. */
  lemma {:induction false} FragmentsNonEmpty(cs: seq<Chunk>)
    requires !Broken(cs)
    ensures forall j :: 0 <= j < |Fragments(cs)| ==> Fragments(cs)[j] != ""
    ensures forall j :: 0 <= j < |Fragments(cs)| ==>
              exists k :: 0 <= k < |cs| && cs[k].choices[0] == Some(Fragments(cs)[j])
  {
    if cs != [] {
      var init := cs[..|cs| - 1];
      var last := cs[|cs| - 1];
      assert !Broken(init) by {
        forall k | 0 <= k < |init| ensures init[k].choices != [] {
          assert init[k] == cs[k];
        }
      }
      FragmentsNonEmpty(init);
      var f := Fragments(cs);
      var g := Fragments(init);
      assert f == g + (if Kept(last) then [last.choices[0].value] else []);
      forall j | 0 <= j < |f| ensures f[j] != "" && exists k :: 0 <= k < |cs| && cs[k].choices[0] == Some(f[j]) {
        if j < |g| {
          assert f[j] == g[j];
          var k :| 0 <= k < |init| && init[k].choices[0] == Some(g[j]);
          assert cs[k] == init[k];
        } else {
          assert Kept(last) && f[j] == last.choices[0].value;
          assert cs[|cs| - 1].choices[0] == Some(f[j]);
        }
      }
    } else {
      assert Fragments(cs) == [];
    }
  }

  /** A chunk whose first content is missing or empty changes nothing. */
  lemma SkipEmpty(cs: seq<Chunk>, c: Chunk, fails: bool)
    requires c.choices != [] && (c.choices[0] == None || c.choices[0] == Some(""))
    ensures Reassembled(Stream(cs + [c], fails)) == Reassembled(Stream(cs, fails))
  {
    if !Broken(cs) {
      assert (cs + [c])[..|cs|] == cs;
      assert (cs + [c])[|cs|] == c;
      assert !Broken(cs + [c]) by {
        forall k | 0 <= k < |cs| + 1 ensures (cs + [c])[k].choices != [] {
          if k < |cs| {
            assert (cs + [c])[k] == cs[k];
          }
        }
      }
      assert Fragments(cs + [c]) == Fragments(cs) + [];
      assert Fragments(cs) + [] == Fragments(cs);
    } else {
      var k :| 0 <= k < |cs| && cs[k].choices == [];
      assert (cs + [c])[k] == cs[k];
    }
  }

  /** A chunk with content appends it to the command. */
  lemma AppendContent(cs: seq<Chunk>, c: Chunk, fails: bool, text: string)
    requires c.choices != [] && c.choices[0] == Some(text) && text != ""
    requires Reassembled(Stream(cs, fails)).Some?
    ensures Reassembled(Stream(cs + [c], fails)) == Some(Reassembled(Stream(cs, fails)).value + text)
  {
    assert (cs + [c])[..|cs|] == cs;
    assert !Broken(cs + [c]) by {
      forall k | 0 <= k < |cs| + 1 ensures (cs + [c])[k].choices != [] {
        if k < |cs| {
          assert (cs + [c])[k] == cs[k];
        }
      }
    }
    var f := Fragments(cs);
    assert Fragments(cs + [c]) == f + [text];
    assert (f + [text])[..|f|] == f;
  }
}
