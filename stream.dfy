/** The accumulation of a streamed Ollama /api/generate reply, a loop that
    appears twice (chat_with_trial in sample_main.py and chat_with_ollama in
    TSA-Agent/TSA_agent.py): read the body line by line, skip empty lines,
    parse each other line as a JSON chunk, append its "response" and stop at
    the first chunk whose "done" is true. */
module OllamaStream {
  import opened Py

  /** One line of the streamed body, after json.loads. */
  datatype StreamLine =
    | Blank                                      // b"": skipped by `if line:`
    | Unparseable                                // json.loads, .get or += raised; logged, loop goes on
    | Chunk(response: Option<string>, done: bool) // a dict chunk; done is the truth of chunk.get("done", False)

  /** What the HTTP call gives back. */
  datatype Reply =
    | PostFailed                                  // requests.post (or raise_for_status) raised
    | Streamed(lines: seq<StreamLine>, broken: bool) // broken: iter_lines raised after these lines

  datatype Accumulated = Accumulated(text: string, sawDone: bool)

  /** chunk.get("response", ""). */
  function Piece(response: Option<string>): string {
    match response
    case Some(s) => s
    case None => ""
  }

  /** The fold the loop computes: the responses up to and including the first
      chunk marked done, and whether such a chunk was seen. */
  function Accumulate(lines: seq<StreamLine>): (r: Accumulated)
    ensures r.sawDone <==> exists k :: 0 <= k < |lines| && lines[k].Chunk? && lines[k].done
  {
    if |lines| == 0 then Accumulated("", false)
    else match lines[0]
      case Blank => Accumulate(lines[1..])
      case Unparseable => Accumulate(lines[1..])
      case Chunk(r, d) =>
        if d then Accumulated(Piece(r), true)
        else
          var rest := Accumulate(lines[1..]);
          Accumulated(Piece(r) + rest.text, rest.sawDone)
  }

  /** The loop itself, proved to compute Accumulate. */
  method CollectStream(lines: seq<StreamLine>) returns (text: string, sawDone: bool)
    ensures Accumulated(text, sawDone) == Accumulate(lines)
  {
    text, sawDone := "", false;
    var i := 0;
    while i < |lines|
      invariant 0 <= i <= |lines|
      invariant !sawDone
      invariant Accumulate(lines) == Accumulated(text + Accumulate(lines[i..]).text, Accumulate(lines[i..]).sawDone)
    {
      match lines[i] {
        case Blank =>
        case Unparseable =>
        case Chunk(r, d) =>
          text := text + Piece(r);
          if d {
            sawDone := true;
            break;
          }
      }
      assert lines[i..][1..] == lines[i + 1..];
      i := i + 1;
    }
  }

  /** What the caller receives: the accumulated text when the stream ended
      normally or reached a done chunk, `onFailure` when the request failed or
      the stream broke before a done chunk (the partial text is dropped). */
  function Answer(reply: Reply, onFailure: string): (r: string)
    ensures reply.PostFailed? ==> r == onFailure
    ensures reply.Streamed? && (exists k :: 0 <= k < |reply.lines| && reply.lines[k].Chunk? && reply.lines[k].done)
      ==> r == Accumulate(reply.lines).text
  {
    match reply
    case PostFailed => onFailure
    case Streamed(lines, broken) =>
      var a := Accumulate(lines);
      if broken && !a.sawDone then onFailure else a.text
  }

  /** The loop with the error handling around it. */
  method Converse(reply: Reply, onFailure: string) returns (answer: string)
    ensures answer == Answer(reply, onFailure)
  {
    match reply
    case PostFailed =>
      answer := onFailure;
    case Streamed(lines, broken) =>
      var text, sawDone := CollectStream(lines);
      answer := if broken && !sawDone then onFailure else text;
  }

  // A reference definition of the fold, written without early exit.

  /** The concatenated responses of every chunk, with no stopping. */
  function Responses(lines: seq<StreamLine>): string {
    if |lines| == 0 then ""
    else match lines[0]
      case Chunk(r, _) => Piece(r) + Responses(lines[1..])
      case _ => Responses(lines[1..])
  }

  /** The position of the first chunk marked done. */
  function FirstDone(lines: seq<StreamLine>): (r: Option<nat>)
    ensures r.Some? ==> r.value < |lines| && lines[r.value].Chunk? && lines[r.value].done
    ensures r.Some? ==> forall k :: 0 <= k < r.value ==> !(lines[k].Chunk? && lines[k].done)
    ensures r.None? ==> forall k :: 0 <= k < |lines| ==> !(lines[k].Chunk? && lines[k].done)
  {
    if |lines| == 0 then None
    else if lines[0].Chunk? && lines[0].done then Some(0)
    else match FirstDone(lines[1..])
      case Some(j) => Some(j + 1)
      case None => None
  }

  /** The answer is the concatenation of the responses of the chunks up to
      and including the first done chunk; with no done chunk, of all chunks. */
  lemma {:induction false} AccumulateMeaning(lines: seq<StreamLine>)
    ensures Accumulate(lines) == match FirstDone(lines)
      case Some(i) => Accumulated(Responses(lines[..i + 1]), true)
      case None => Accumulated(Responses(lines), false)
  {
    if |lines| > 0 {
      AccumulateMeaning(lines[1..]);
      match FirstDone(lines) {
        case None =>
        case Some(i) =>
          var p := lines[..i + 1];
          assert p[0] == lines[0];
          if i > 0 {
            assert p[1..] == lines[1..][..i];
          } else {
            assert Responses(p[1..]) == "";
          }
      }
    }
  }

  /** Lines after the first done chunk are never looked at. */
  lemma {:induction false} DoneStopsReading(lines: seq<StreamLine>, more: seq<StreamLine>)
    requires FirstDone(lines).Some?
    ensures Accumulate(lines + more) == Accumulate(lines)
  {
    assert (lines + more)[0] == lines[0];
    if !(lines[0].Chunk? && lines[0].done) {
      assert (lines + more)[1..] == lines[1..] + more;
      DoneStopsReading(lines[1..], more);
    }
  }

  /** An empty or unparseable line contributes nothing and does not stop the
      loop: removing it leaves the result unchanged. */
  lemma {:induction false} NoiseIgnored(before: seq<StreamLine>, x: StreamLine, after: seq<StreamLine>)
    requires x.Blank? || x.Unparseable?
    ensures Accumulate(before + [x] + after) == Accumulate(before + after)
  {
    if |before| == 0 {
      assert before + [x] + after == [x] + after;
      assert ([x] + after)[1..] == after;
      assert before + after == after;
    } else {
      assert (before + [x] + after)[0] == before[0] == (before + after)[0];
      assert (before + [x] + after)[1..] == before[1..] + [x] + after;
      assert (before + after)[1..] == before[1..] + after;
      NoiseIgnored(before[1..], x, after);
    }
  }

  /** A stream without a done chunk that ends normally gives every response;
      one that breaks gives the failure value, whatever was read before. */
  lemma NoDoneEndings(lines: seq<StreamLine>, onFailure: string)
    requires FirstDone(lines).None?
    ensures Answer(Streamed(lines, false), onFailure) == Responses(lines)
    ensures Answer(Streamed(lines, true), onFailure) == onFailure
  {
    AccumulateMeaning(lines);
  }
}
