/** format_chat_response of PDF_summarizer/utils/chat_utils.py: the chain's
    answer, then a REFERENCES block with one numbered entry per source,
    each quoting at most the first 500 characters of the source's text. */
module ChatFormat {
  import opened Text
  import opened Py

  /** The line between the answer and the entries. */
  const Header := "\n\n---\nREFERENCES:\n"

  /** v[:n] for the value of s['text']: a string or a list is cut, anything
      else raises TypeError. */
  function Cut(v: Json, n: nat): (r: Result<Json>)
    ensures r.Err? <==> !(v.Str? || v.Arr?)
    ensures r.Err? ==> r.error == TypeError
    ensures v.Str? ==> r.Ok? && r.value.Str? && |r.value.s| == Min(|v.s|, n) && r.value.s == v.s[..|r.value.s|]
    ensures v.Arr? ==> r.Ok? && r.value.Arr? && |r.value.items| == Min(|v.items|, n) && r.value.items == v.items[..|r.value.items|]
  {
    match v
    case Str(s) => Ok(Str(Take(s, n)))
    case Arr(items) => Ok(Arr(Take(items, n)))
    case _ => Err(TypeError)
  }

  function Min(a: nat, b: nat): nat {
    if a <= b then a else b
  }

  /** The entry of the source at index i (numbered i + 1):
      f"Source {i+1} ({s['metadata']['title']}):\n{s['text'][:500]}...".
      The title is looked up before the text. */
  function SourceEntry(i: nat, s: Json): Result<string> {
    match Index(s, "metadata")
    case Err(e) => Err(e)
    case Ok(metadata) =>
      match Index(metadata, "title")
      case Err(e) => Err(e)
      case Ok(title) =>
        match Index(s, "text")
        case Err(e) => Err(e)
        case Ok(text) =>
          match Cut(text, 500)
          case Err(e) => Err(e)
          case Ok(cut) => Ok("Source " + NatToString(i + 1) + " (" + Show(title) + "):\n" + Show(cut) + "...")
  }

  /** What a source needs for its entry: a dict with a "text" of a string
      or a list, and a "metadata" dict with a "title". */
  predicate WellFormed(s: Json) {
    HasKey(s, "metadata") && HasKey(Index(s, "metadata").value, "title")
      && HasKey(s, "text") && (Index(s, "text").value.Str? || Index(s, "text").value.Arr?)
  }

  /** An entry exists exactly for a well-formed source; a source without
      metadata fails on the metadata before its text is looked at. */
  lemma SourceEntryOk(i: nat, s: Json)
    ensures SourceEntry(i, s).Ok? <==> WellFormed(s)
    ensures !HasKey(s, "metadata") ==> SourceEntry(i, s) == Err(Index(s, "metadata").error)
    ensures HasKey(s, "metadata") && !HasKey(Index(s, "metadata").value, "title") ==>
      SourceEntry(i, s) == Err(Index(Index(s, "metadata").value, "title").error)
  {
  }

  /** A source whose text is a string quotes the first 500 characters of it
      (all of it when shorter) and always ends in "...", cut or not. */
  lemma StringSourceEntry(i: nat, s: Json)
    requires WellFormed(s) && Index(s, "text").value.Str?
    ensures var text := Index(s, "text").value.s;
      SourceEntry(i, s).value ==
        "Source " + NatToString(i + 1) + " (" + Show(Index(Index(s, "metadata").value, "title").value) + "):\n"
          + text[..Min(|text|, 500)] + "..."
  {
  }

  /** The entries f gives the sources in order, the k-th given its index
      k: the error of the first source without an entry, otherwise one
      entry per source. */
  function EntriesWith(f: (nat, Json) -> Result<string>, sources: seq<Json>): (r: Result<seq<string>>)
    ensures r.Ok? <==> forall k :: 0 <= k < |sources| ==> f(k, sources[k]).Ok?
    ensures r.Ok? ==> (|r.value| == |sources|
      && forall k :: 0 <= k < |sources| ==> r.value[k] == f(k, sources[k]).value)
    ensures r.Err? ==> exists k :: (0 <= k < |sources| && f(k, sources[k]) == Err(r.error)
      && forall j :: 0 <= j < k ==> f(j, sources[j]).Ok?)
    decreases |sources|
  {
    if |sources| == 0 then Ok([])
    else
      var n := |sources| - 1;
      var front := sources[..n];
      assert forall k :: 0 <= k < n ==> front[k] == sources[k];
      match EntriesWith(f, front)
      case Err(e) => Err(e)
      case Ok(es) =>
        match f(n, sources[n])
        case Err(e) => Err(e)
        case Ok(entry) => Ok(es + [entry])
  }

  /** The "\n\n".join(...) argument: the sources' entries, numbered from 1. */
  function Entries(sources: seq<Json>): Result<seq<string>> {
    EntriesWith(SourceEntry, sources)
  }

  /** format_chat_response(response, sources). response["answer"] is read
      before any source. */
  function FormatChatResponse(response: Json, sources: seq<Json>): (r: Result<string>)
    ensures r.Ok? <==> HasKey(response, "answer") && forall k :: 0 <= k < |sources| ==> WellFormed(sources[k])
    ensures !HasKey(response, "answer") ==> r == Err(Index(response, "answer").error)
  {
    assert forall k :: 0 <= k < |sources| ==> (SourceEntry(k, sources[k]).Ok? <==> WellFormed(sources[k])) by {
      forall k | 0 <= k < |sources| {
        SourceEntryOk(k, sources[k]);
      }
    }
    match Index(response, "answer")
    case Err(e) => Err(e)
    case Ok(answer) =>
      match Entries(sources)
      case Err(e) => Err(e)
      case Ok(es) => Ok(Show(answer) + Header + Join("\n\n", es))
  }

  /** The answer comes first, then the header, then the entries in source
      order, the k-th numbered k + 1. */
  lemma FormatLayout(response: Json, sources: seq<Json>)
    requires FormatChatResponse(response, sources).Ok?
    ensures var answer := Show(Index(response, "answer").value);
      var out := FormatChatResponse(response, sources).value;
      && |out| >= |answer| + |Header|
      && out[..|answer| + |Header|] == answer + Header
      && out[|answer| + |Header|..] == Join("\n\n", Entries(sources).value)
    ensures forall k :: 0 <= k < |sources| ==>
      Entries(sources).value[k] == SourceEntry(k, sources[k]).value
      && StartsWith(Entries(sources).value[k], "Source " + NatToString(k + 1) + " (")
  {
    var answer := Show(Index(response, "answer").value);
    var out := FormatChatResponse(response, sources).value;
    assert out == answer + Header + Join("\n\n", Entries(sources).value);
    forall k | 0 <= k < |sources|
      ensures StartsWith(Entries(sources).value[k], "Source " + NatToString(k + 1) + " (")
    {
      EntryNumbered(k, sources[k]);
    }
  }

  lemma EntryNumbered(i: nat, s: Json)
    requires SourceEntry(i, s).Ok?
    ensures StartsWith(SourceEntry(i, s).value, "Source " + NatToString(i + 1) + " (")
  {
    var p := "Source " + NatToString(i + 1) + " (";
    var e := SourceEntry(i, s).value;
    assert e[..|p|] == p;
  }

  /** With no sources the reply ends right after the header. */
  lemma NoSources(response: Json)
    requires HasKey(response, "answer")
    ensures FormatChatResponse(response, []) == Ok(Show(Index(response, "answer").value) + "\n\n---\nREFERENCES:\n")
  {
    var answer := Show(Index(response, "answer").value);
    assert Entries([]) == Ok([]);
    assert answer + Header + Join("\n\n", []) == answer + Header;
  }

  /** The first source without an entry decides the error, whatever the
      sources after it hold. */
  lemma FirstBadSource(response: Json, sources: seq<Json>, k: nat)
    requires HasKey(response, "answer")
    requires k < |sources| && !WellFormed(sources[k])
    requires forall j :: 0 <= j < k ==> WellFormed(sources[j])
    ensures FormatChatResponse(response, sources) == Err(SourceEntry(k, sources[k]).error)
  {
    forall j | 0 <= j <= k {
      SourceEntryOk(j, sources[j]);
    }
    var r := Entries(sources);
    if r.Err? {
      var m :| 0 <= m < |sources| && SourceEntry(m, sources[m]) == Err(r.error)
        && forall j :: 0 <= j < m ==> SourceEntry(j, sources[j]).Ok?;
      assert !(m < k) && !(k < m);
    }
  }
}
