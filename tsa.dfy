/** The protein report of TSA-Agent/TSA_agent.py: the map of endpoint
    answers gathered by fetch_all_data, the nested lookup safe_get, the
    report format_protein_data writes (with the exceptions it lets escape),
    and chat_with_ollama. Every HTTP answer is an input: the parsed JSON, or
    Null where fetch_api_data returned None. */
module TsaAgent {
  import opened Text
  import opened Py
  import OllamaStream

  // ---------------------------------------------------------------------
  // fetch_all_data

  /** The keys of the endpoints dict, in its order. */
  const EndpointKeys: seq<string> :=
    ["uniprot", "omim", "disgenet", "chembl", "faers", "clinical_trials", "gtex", "hpa", "proteomicsdb"]

  /** fetch_all_data with the thread pool run one request after another:
      `answer(key)` is what fetch_api_data gave for that endpoint (Null when
      the request failed or the future raised). */
  method FetchAllData(answer: string -> Json) returns (data: map<string, Json>)
    ensures data.Keys == set k | k in EndpointKeys
    ensures forall k :: k in data ==> data[k] == answer(k)
  {
    data := map[];
    var i := 0;
    while i < |EndpointKeys|
      invariant 0 <= i <= |EndpointKeys|
      invariant data.Keys == set k | k in EndpointKeys[..i]
      invariant forall k :: k in data ==> data[k] == answer(k)
    {
      var key := EndpointKeys[i];
      data := data[key := answer(key)];
      assert EndpointKeys[..i + 1] == EndpointKeys[..i] + [key];
      i := i + 1;
    }
    assert EndpointKeys[..i] == EndpointKeys;
  }

  // ---------------------------------------------------------------------
  // safe_get

  /** A key of a safe_get path: a dict key or a list position. */
  datatype Key = KStr(s: string) | KInt(i: int)

  /** safe_get(data, keys, default): follow the keys while the current value
      is a dict holding the key; otherwise give the default. A JSON dict has
      only string keys, so an integer key never matches. */
  function SafeGet(data: Json, keys: seq<Key>, default: Json): (r: Json)
    ensures |keys| == 0 ==> r == data
  {
    if |keys| == 0 then data
    else match keys[0]
      case KInt(_) => default
      case KStr(k) =>
        if HasKey(data, k) then SafeGet(Lookup(data.members, k).value, keys[1..], default)
        else default
  }

  /** One string key: the same as d.get(key, default) on a dict, and the
      default on anything else. */
  lemma SafeGetOne(data: Json, key: string, default: Json)
    ensures data.Obj? ==> Get(data, key, default) == Ok(SafeGet(data, [KStr(key)], default))
    ensures !data.Obj? ==> SafeGet(data, [KStr(key)], default) == default
  {
  }

  /** A path with an integer key always gives the default: list positions are
      never followed. */
  lemma {:induction false} SafeGetIntKey(data: Json, keys: seq<Key>, default: Json, i: nat)
    requires i < |keys| && keys[i].KInt?
    ensures SafeGet(data, keys, default) == default
  {
    if i > 0 && keys[0].KStr? && HasKey(data, keys[0].s) {
      SafeGetIntKey(Lookup(data.members, keys[0].s).value, keys[1..], default, i - 1);
    }
  }

  /** With a default that is not a dict, a path can be followed in two legs. */
  lemma {:induction false} SafeGetAppend(data: Json, a: seq<Key>, b: seq<Key>, default: Json)
    requires !default.Obj?
    ensures SafeGet(data, a + b, default) == SafeGet(SafeGet(data, a, default), b, default)
  {
    if |a| == 0 {
      assert a + b == b;
    } else {
      assert (a + b)[0] == a[0] && (a + b)[1..] == a[1..] + b;
      if a[0].KStr? && HasKey(data, a[0].s) {
        SafeGetAppend(Lookup(data.members, a[0].s).value, a[1..], b, default);
      } else {
        SafeGetOfDefault(b, default);
      }
    }
  }

  /** Walking from a default that is not a dict gives the default back. */
  lemma SafeGetOfDefault(keys: seq<Key>, default: Json)
    requires !default.Obj?
    ensures SafeGet(default, keys, default) == default
  {
  }

  // ---------------------------------------------------------------------
  // The list sections of format_protein_data

  /** (v or [])[:n], as the values iterated over. Slicing a dict, a number
      or True raises. */
  function Listed(v: Json, n: nat): (r: Result<seq<Json>>)
    ensures r.Ok? ==> |r.value| <= n
    ensures !Truthy(v) ==> r == Ok([])
    ensures v.Arr? ==> r == Ok(Take(v.items, n))
    ensures r.Err? <==> Truthy(v) && (v.Obj? || v.Num? || v.Bool?)
  {
    if !Truthy(v) then Ok([])
    else match v
      case Arr(items) => Ok(Take(items, n))
      case Str(s) => Ok(Chars(Take(s, n)))
      case _ => Err(TypeError)
  }

  /** d.get(field, default) when a default is given, d[field] otherwise. */
  function Pick(d: Json, field: string, default: Option<Json>): Result<Json> {
    match default
    case Some(dv) => Get(d, field, dv)
    case None => Index(d, field)
  }

  /** The list comprehension: one Pick per item, in order; the first item
      that raises ends it. */
  function Picked(items: seq<Json>, field: string, default: Option<Json>): (r: Result<seq<Json>>)
    ensures r.Ok? <==> forall k :: 0 <= k < |items| ==> Pick(items[k], field, default).Ok?
    ensures r.Ok? ==> |r.value| == |items|
    ensures r.Ok? ==> forall k :: 0 <= k < |items| ==> Pick(items[k], field, default) == Ok(r.value[k])
    ensures r.Err? ==> exists k :: 0 <= k < |items| && Pick(items[k], field, default) == Err(r.error)
  {
    if |items| == 0 then Ok([])
    else match Pick(items[0], field, default)
      case Err(e) => Err(e)
      case Ok(x) =>
        match Picked(items[1..], field, default)
        case Err(e) => Err(e)
        case Ok(xs) => Ok([x] + xs)
  }

  /** ", ".join accepts only strings. */
  function Strings(vals: seq<Json>): (r: Result<seq<string>>)
    ensures r.Ok? <==> forall k :: 0 <= k < |vals| ==> vals[k].Str?
    ensures r.Err? ==> r.error == TypeError
    ensures r.Ok? ==> |r.value| == |vals| && forall k :: 0 <= k < |vals| ==> r.value[k] == vals[k].s
  {
    if forall k :: 0 <= k < |vals| ==> vals[k].Str? then
      Ok(seq(|vals|, k requires 0 <= k < |vals| => vals[k].s))
    else Err(TypeError)
  }

  /** The names listed in one section: at most n of them, and for a list
      value, the field of each of its first n items, in order. */
  function ListNames(v: Json, n: nat, field: string, default: Option<Json>): (r: Result<seq<string>>)
    ensures r.Ok? ==> |r.value| <= n
    ensures !Truthy(v) ==> r == Ok([])
    ensures v.Arr? && r.Ok? ==>
      && |r.value| == |Take(v.items, n)|
      && forall k :: 0 <= k < |r.value| ==> Pick(v.items[k], field, default) == Ok(Str(r.value[k]))
  {
    match Listed(v, n)
    case Err(e) => Err(e)
    case Ok(items) =>
      match Picked(items, field, default)
      case Err(e) => Err(e)
      case Ok(vals) => Strings(vals)
  }

  /** The pieces of the four list sections. */
  function DisgenetNames(v: Json): Result<seq<string>> {
    ListNames(v, 5, "disease_name", Some(Str("N/A")))
  }

  function ChemblNames(v: Json): Result<seq<string>> {
    match Get(v, "molecules", Null)
    case Err(e) => Err(e)
    case Ok(m) => ListNames(m, 5, "molecule_chembl_id", Some(Str("N/A")))
  }

  function FaersNames(v: Json): Result<seq<string>> {
    match Get(v, "results", Null)
    case Err(e) => Err(e)
    case Ok(m) => ListNames(m, 5, "term", None)
  }

  function TrialNames(v: Json): Result<seq<string>> {
    match Get(v, "FullStudiesResponse", Obj([]))
    case Err(e) => Err(e)
    case Ok(resp) =>
      match Get(resp, "FullStudies", Null)
      case Err(e) => Err(e)
      case Ok(m) => ListNames(m, 3, "title", Some(Str("N/A")))
  }

  /** A failed DisGeNET fetch (None) is tolerated; failed ChEMBL, FAERS and
      ClinicalTrials fetches make .get raise on None. */
  lemma NullSections()
    ensures DisgenetNames(Null) == Ok([])
    ensures ChemblNames(Null) == Err(AttributeError)
    ensures FaersNames(Null) == Err(AttributeError)
    ensures TrialNames(Null) == Err(AttributeError)
  {
  }

  /** A FAERS event without "term" raises KeyError, wherever it sits among
      the first five. */
  lemma {:induction false} FaersMissingTerm(events: seq<Json>, i: nat)
    requires i < |events| && i < 5
    requires events[i].Obj? && !HasKey(events[i], "term")
    requires forall k :: 0 <= k < i ==> HasKey(events[k], "term")
    ensures FaersNames(Obj([Member("results", Arr(events))])) == Err(KeyError("term"))
  {
    var items := Take(events, 5);
    assert items[i] == events[i];
    PickedFirstError(items, "term", None, i);
  }

  /** Picked raises the error of the first item that fails. */
  lemma {:induction false} PickedFirstError(items: seq<Json>, field: string, default: Option<Json>, i: nat)
    requires i < |items| && Pick(items[i], field, default).Err?
    requires forall k :: 0 <= k < i ==> Pick(items[k], field, default).Ok?
    ensures Picked(items, field, default) == Err(Pick(items[i], field, default).error)
  {
    if i > 0 {
      PickedFirstError(items[1..], field, default, i - 1);
    }
  }

  // ---------------------------------------------------------------------
  // format_protein_data

  const SectionTitles: seq<string> := [
    "UniProt Summary", "OMIM Disease Associations", "DisGeNET Disease Links",
    "ChEMBL Drugs", "FAERS Adverse Events", "Clinical Trials",
    "Expression Data (GTEx, HPA, ProteomicsDB)"]

  const UniprotPath: seq<Key> := [KStr("results"), KInt(0), KStr("comment")]
  const OmimPath: seq<Key> := [KStr("omim"), KStr("entryList"), KInt(0), KStr("entry"), KStr("titles"), KStr("preferredTitle")]

  /** protein_data[key]. */
  function At(data: map<string, Json>, key: string): Result<Json> {
    if key in data then Ok(data[key]) else Err(KeyError(key))
  }

  /** protein_data.get(key, default). */
  function GetOr(data: map<string, Json>, key: string, default: Json): Json {
    if key in data then data[key] else default
  }

  /** The seven section values, computed in the order the report is written;
      the first that raises ends the report. */
  function SectionValues(data: map<string, Json>): (r: Result<seq<string>>)
    ensures r.Ok? ==> |r.value| == 7
  {
    match At(data, "uniprot")
    case Err(e) => Err(e)
    case Ok(uniprot) =>
      var u := Show(SafeGet(uniprot, UniprotPath, Str("No data available")));
      match At(data, "omim")
      case Err(e) => Err(e)
      case Ok(omim) =>
        var o := Show(SafeGet(omim, OmimPath, Str("No data available")));
        match DisgenetNames(GetOr(data, "disgenet", Null))
        case Err(e) => Err(e)
        case Ok(diseases) =>
          match ChemblNames(GetOr(data, "chembl", Obj([])))
          case Err(e) => Err(e)
          case Ok(drugs) =>
            match FaersNames(GetOr(data, "faers", Obj([])))
            case Err(e) => Err(e)
            case Ok(events) =>
              match TrialNames(GetOr(data, "clinical_trials", Obj([])))
              case Err(e) => Err(e)
              case Ok(trials) =>
                match At(data, "gtex")
                case Err(e) => Err(e)
                case Ok(gtex) =>
                  var g := Show(SafeGet(gtex, [KStr("data")], Str("No expression data available")));
                  Ok([u, o, Join(", ", diseases), Join(", ", drugs), Join(", ", events), Join(", ", trials), g])
  }

  /** One report line per section: "**title:** value". */
  function SectionLines(values: seq<string>): (r: seq<string>)
    requires |values| == 7
    ensures |r| == 7 && forall k :: 0 <= k < 7 ==> r[k] == "**" + SectionTitles[k] + ":** " + values[k]
  {
    seq(7, k requires 0 <= k < 7 => "**" + SectionTitles[k] + ":** " + values[k])
  }

  /** Each line preceded by a newline, as the `+=` of format_protein_data
      appends them. */
  function Appended(lines: seq<string>): string {
    if |lines| == 0 then "" else "\n" + lines[0] + Appended(lines[1..])
  }

  function Header(name: string): string {
    "### Protein: " + name + "\n"
  }

  /** format_protein_data(name, protein_data). */
  function FormatProteinData(name: string, data: map<string, Json>): (r: Result<string>)
    ensures r.Ok? <==> SectionValues(data).Ok?
    ensures r.Err? ==> r.error == SectionValues(data).error
    ensures r.Ok? ==> StartsWith(r.value, "### Protein: " + name + "\n")
  {
    match SectionValues(data)
    case Err(e) => Err(e)
    case Ok(values) =>
      var out := Header(name) + Appended(SectionLines(values));
      assert out[..|Header(name)|] == Header(name);
      Ok(out)
  }

  lemma {:induction false} AppendedJoin(lines: seq<string>)
    requires |lines| >= 1
    ensures Appended(lines) == "\n" + Join("\n", lines)
  {
    if |lines| > 1 {
      AppendedJoin(lines[1..]);
    }
  }

  /** The lines of a report whose section values are `values`. */
  function ReportLines(name: string, values: seq<string>): seq<string>
    requires |values| == 7
  {
    ["### Protein: " + name, ""] + SectionLines(values)
  }

  /** The text built by `+=` is the newline-join of the report lines. */
  lemma ReportIsJoin(name: string, values: seq<string>)
    requires |values| == 7
    ensures Header(name) + Appended(SectionLines(values)) == Join("\n", ReportLines(name, values))
  {
    var lines := SectionLines(values);
    var all := ReportLines(name, values);
    AppendedJoin(lines);
    assert all[1..] == [""] + lines && all[2..] == lines;
  }

  lemma SectionLinesFree(values: seq<string>)
    requires |values| == 7
    requires forall k :: 0 <= k < 7 ==> '\n' !in values[k]
    ensures forall k :: 0 <= k < 7 ==> '\n' !in SectionLines(values)[k]
  {
    TitlesFree();
    forall k | 0 <= k < 7 ensures '\n' !in SectionLines(values)[k] {
      NoNewline("**", SectionTitles[k], ":** ", values[k]);
    }
  }

  lemma TitlesFree()
    ensures forall k :: 0 <= k < 7 ==> '\n' !in SectionTitles[k]
  {
  }

  lemma NoNewline(a: string, b: string, c: string, d: string)
    requires '\n' !in a && '\n' !in b && '\n' !in c && '\n' !in d
    ensures '\n' !in a + b + c + d
  {
  }

  lemma SplitReport(name: string, values: seq<string>)
    requires |values| == 7
    requires '\n' !in name
    requires forall k :: 0 <= k < 7 ==> '\n' !in values[k]
    ensures Split(Header(name) + Appended(SectionLines(values)), '\n') == ReportLines(name, values)
  {
    var lines := SectionLines(values);
    var all := ReportLines(name, values);
    SectionLinesFree(values);
    assert all == ["### Protein: " + name, ""] + lines;
    assert forall k :: 2 <= k < 9 ==> all[k] == lines[k - 2];
    ReportIsJoin(name, values);
    SplitJoin(all, '\n');
  }

  /** The report starts with its header; when neither the name nor any value
      holds a newline, its lines are the header, an empty line and the seven
      sections in the fixed order UniProt, OMIM, DisGeNET, ChEMBL, FAERS,
      Clinical Trials, Expression. */
  lemma ReportLayout(name: string, data: map<string, Json>)
    requires SectionValues(data).Ok?
    requires '\n' !in name
    requires forall k :: 0 <= k < 7 ==> '\n' !in SectionValues(data).value[k]
    ensures StartsWith(FormatProteinData(name, data).value, "### Protein: " + name + "\n")
    ensures Split(FormatProteinData(name, data).value, '\n') == ReportLines(name, SectionValues(data).value)
  {
    var values := SectionValues(data).value;
    SplitReport(name, values);
    var h := Header(name);
    var out := h + Appended(SectionLines(values));
    assert out[..|h|] == h;
  }

  /** The UniProt and OMIM paths go through a list position, so those two
      lines always show "No data available". */
  lemma UniprotOmimAlwaysDefault(data: map<string, Json>)
    requires SectionValues(data).Ok?
    ensures SectionValues(data).value[0] == "No data available"
    ensures SectionValues(data).value[1] == "No data available"
  {
    SafeGetIntKey(data["uniprot"], UniprotPath, Str("No data available"), 1);
    SafeGetIntKey(data["omim"], OmimPath, Str("No data available"), 2);
  }

  /** The report raises exactly when a section does; in particular a failed
      ChEMBL, FAERS or ClinicalTrials fetch always makes it raise. */
  lemma NullFetchRaises(name: string, data: map<string, Json>, key: string)
    requires key in ["chembl", "faers", "clinical_trials"]
    requires key in data && data[key] == Null
    ensures FormatProteinData(name, data).Err?
  {
    NullSections();
  }

  // ---------------------------------------------------------------------
  // chat_with_ollama

  const ApiErrorMessage := "⚠️ AI response unavailable due to API error."

  /** chat_with_ollama: the accumulated stream, or the warning message when
      the request or the stream fails. */
  method ChatWithOllama(reply: OllamaStream.Reply) returns (answer: string)
    ensures answer == OllamaStream.Answer(reply, ApiErrorMessage)
    ensures reply.PostFailed? ==> answer == ApiErrorMessage
  {
    answer := OllamaStream.Converse(reply, ApiErrorMessage);
  }
}
