/** The ClinicalTrials.gov search-and-chat page of sample_main.py, without
    its Streamlit rendering: the advanced-search parameters, the NCT ID list
    normalisation, the study summary and trial context strings, the session
    state holding fetched trial details and per-trial chat histories, and the
    chat call. HTTP answers are given as inputs. */
module ClinicalTrialsApp {
  import opened Text
  import opened Py
  import OllamaStream

  // ---------------------------------------------------------------------
  // chat_with_trial

  const PromptHead := "Clinical Trial Details:\n"
  const PromptUser := "\n\nUser: "
  const PromptTail := "\nAssistant:"

  /** The prompt sent to the model. */
  function TrialPrompt(userMessage: string, trialContext: string): string {
    PromptHead + trialContext + PromptUser + userMessage + PromptTail
  }

  /** The trial context and the user message can be read back from fixed
      positions of the prompt: the header, the context, the "User: " line
      and the closing "Assistant:" are laid out in this order. */
  lemma TrialPromptLayout(userMessage: string, trialContext: string)
    ensures var p, c, m := TrialPrompt(userMessage, trialContext), |trialContext|, |userMessage|;
      && |p| == 24 + c + 8 + m + 11
      && p[..24] == "Clinical Trial Details:\n"
      && p[24..24 + c] == trialContext
      && p[24 + c..32 + c] == "\n\nUser: "
      && p[32 + c..32 + c + m] == userMessage
      && p[32 + c + m..] == "\nAssistant:"
  {
  }

  /** chat_with_trial: the prompt it sends and the text it returns; any
      exception from the request or the stream gives "". */
  method ChatWithTrial(userMessage: string, trialContext: string, reply: OllamaStream.Reply)
    returns (prompt: string, answer: string)
    ensures prompt == TrialPrompt(userMessage, trialContext)
    ensures answer == OllamaStream.Answer(reply, "")
    ensures reply.PostFailed? ==> answer == ""
  {
    prompt := TrialPrompt(userMessage, trialContext);
    answer := OllamaStream.Converse(reply, "");
  }

  // ---------------------------------------------------------------------
  // Advanced search parameters

  datatype Param = IntParam(n: int) | TextParam(s: string)

  /** The stripped, non-empty pieces, in order. */
  function Cleaned(pieces: seq<string>): (r: seq<string>)
    ensures |r| <= |pieces|
    ensures forall k :: 0 <= k < |r| ==> r[k] != "" && !IsSpace(r[k][0]) && !IsSpace(r[k][|r[k]| - 1])
  {
    if |pieces| == 0 then []
    else
      var t := Strip(pieces[0]);
      (if t != "" then [t] else []) + Cleaned(pieces[1..])
  }

  /** "|".join([s.strip() for s in nct_ids.split(",") if s.strip()]). */
  function NormalizeNctIds(nctIds: string): (r: string)
    ensures ',' !in r
  {
    IdsAvoidComma(Split(nctIds, ','));
    Join("|", Cleaned(Split(nctIds, ',')))
  }

  lemma IdsAvoidComma(pieces: seq<string>)
    requires forall j :: 0 <= j < |pieces| ==> ',' !in pieces[j]
    ensures ',' !in Join("|", Cleaned(pieces))
  {
    CleanedAvoids(pieces, ',');
    JoinAvoids("|", Cleaned(pieces), ',');
  }

  /** The keys of the params dict. */
  datatype ParamKey = PageSize | Format | MarkupFormat | QueryCond | QueryTitles | QueryTerm | FilterIds

  /** The name each key is sent under. */
  function KeyName(k: ParamKey): string {
    match k
    case PageSize => "pageSize"
    case Format => "format"
    case MarkupFormat => "markupFormat"
    case QueryCond => "query.cond"
    case QueryTitles => "query.titles"
    case QueryTerm => "query.term"
    case FilterIds => "filter.ids"
  }

  /** Distinct keys have distinct names, so a map over ParamKey is the
      params dict. */
  lemma KeyNamesDistinct(a: ParamKey, b: ParamKey)
    requires a != b
    ensures KeyName(a) != KeyName(b)
  {
    assert KeyName(a)[0] != KeyName(b)[0] || KeyName(a)[|KeyName(a)| - 1] != KeyName(b)[|KeyName(b)| - 1]
      || |KeyName(a)| != |KeyName(b)|;
  }

  /** The params dict built before the advanced search request. */
  method AdvancedSearchParams(pageSize: int, condition: string, titleSearch: string, termSearch: string, nctIds: string)
    returns (params: map<ParamKey, Param>)
    ensures params.Keys <= {PageSize, Format, MarkupFormat, QueryCond, QueryTitles, QueryTerm, FilterIds}
    ensures PageSize in params && params[PageSize] == IntParam(pageSize)
    ensures Format in params && params[Format] == TextParam("json")
    ensures MarkupFormat in params && params[MarkupFormat] == TextParam("markdown")
    ensures QueryCond in params <==> condition != ""
    ensures QueryTitles in params <==> titleSearch != ""
    ensures QueryTerm in params <==> termSearch != ""
    ensures FilterIds in params <==> nctIds != ""
    ensures condition != "" ==> params[QueryCond] == TextParam(condition)
    ensures titleSearch != "" ==> params[QueryTitles] == TextParam(titleSearch)
    ensures termSearch != "" ==> params[QueryTerm] == TextParam(termSearch)
    ensures nctIds != "" ==> params[FilterIds] == TextParam(NormalizeNctIds(nctIds))
  {
    params := map[PageSize := IntParam(pageSize), Format := TextParam("json"), MarkupFormat := TextParam("markdown")];
    if condition != "" {
      params := params[QueryCond := TextParam(condition)];
    }
    if titleSearch != "" {
      params := params[QueryTitles := TextParam(titleSearch)];
    }
    if termSearch != "" {
      params := params[QueryTerm := TextParam(termSearch)];
    }
    if nctIds != "" {
      var ids := NormalizeNctIds(nctIds);
      params := params[FilterIds := TextParam(ids)];
    }
  }


  /** A character absent from every piece is absent from every cleaned piece. */
  lemma {:induction false} CleanedAvoids(pieces: seq<string>, c: char)
    requires forall j :: 0 <= j < |pieces| ==> c !in pieces[j]
    ensures forall k :: 0 <= k < |Cleaned(pieces)| ==> c !in Cleaned(pieces)[k]
  {
    if |pieces| > 0 {
      CleanedAvoids(pieces[1..], c);
    }
  }

  /** Cleaning distributes over concatenation: order is preserved. */
  lemma {:induction false} CleanedAppend(a: seq<string>, b: seq<string>)
    ensures Cleaned(a + b) == Cleaned(a) + Cleaned(b)
  {
    if |a| == 0 {
      assert a + b == b;
    } else {
      assert (a + b)[0] == a[0] && (a + b)[1..] == a[1..] + b;
      CleanedAppend(a[1..], b);
    }
  }

  /** The ids of the text before a comma come before those after it. */
  lemma NctIdsOrder(a: string, b: string)
    ensures Cleaned(Split(a + "," + b, ',')) == Cleaned(Split(a, ',')) + Cleaned(Split(b, ','))
  {
    SplitAppend(a, ',', b);
    CleanedAppend(Split(a, ','), Split(b, ','));
  }

  /** When the input has no '|', splitting the result on '|' gives back the
      stripped non-empty pieces. */
  lemma NctIdsRoundTrip(nctIds: string)
    requires '|' !in nctIds
    requires Cleaned(Split(nctIds, ',')) != []
    ensures Split(NormalizeNctIds(nctIds), '|') == Cleaned(Split(nctIds, ','))
  {
    SplitChars(nctIds, ',');
    CleanedAvoids(Split(nctIds, ','), '|');
    SplitJoin(Cleaned(Split(nctIds, ',')), '|');
  }

  /** Input made only of commas and whitespace normalises to "" (and, being
      non-empty, still sets filter.ids to ""). */
  lemma {:induction false} NctIdsAllBlank(nctIds: string)
    requires forall k :: 0 <= k < |nctIds| ==> nctIds[k] == ',' || IsSpace(nctIds[k])
    ensures NormalizeNctIds(nctIds) == ""
  {
    var pieces := Split(nctIds, ',');
    SplitChars(nctIds, ',');
    forall j, k | 0 <= j < |pieces| && 0 <= k < |pieces[j]| ensures IsSpace(pieces[j][k]) {
      var c := pieces[j][k];
      assert c in pieces[j] && c != ',';
      assert c in nctIds;
      var i :| 0 <= i < |nctIds| && nctIds[i] == c;
    }
    BlankPiecesDropped(pieces);
  }

  lemma {:induction false} BlankPiecesDropped(pieces: seq<string>)
    requires forall j, k :: 0 <= j < |pieces| && 0 <= k < |pieces[j]| ==> IsSpace(pieces[j][k])
    ensures Cleaned(pieces) == []
  {
    if |pieces| > 0 {
      StripEmptyIff(pieces[0]);
      BlankPiecesDropped(pieces[1..]);
    }
  }

  // ---------------------------------------------------------------------
  // Study summary and trial context

  /** study.get("protocolSection", {}).get(name, {}). */
  function ModuleOf(study: Json, name: string): Result<Json> {
    match Get(study, "protocolSection", Obj([]))
    case Err(e) => Err(e)
    case Ok(section) => Get(section, name, Obj([]))
  }

  /** module.get(field, "N/A") as an f-string shows it. */
  function FieldOf(study: Json, moduleName: string, field: string): Result<string> {
    match ModuleOf(study, moduleName)
    case Err(e) => Err(e)
    case Ok(m) =>
      match Get(m, field, Str("N/A"))
      case Err(e) => Err(e)
      case Ok(v) => Ok(Show(v))
  }

  /** A dict without "protocolSection" shows every field as "N/A"; so does a
      protocol section without the module, or a module without the field. */
  lemma FieldDefaults(study: Json, moduleName: string, field: string)
    requires study.Obj?
    ensures !HasKey(study, "protocolSection") ==> FieldOf(study, moduleName, field) == Ok("N/A")
    ensures HasKey(study, "protocolSection") && Index(study, "protocolSection").value.Obj?
      && !HasKey(Index(study, "protocolSection").value, moduleName)
      ==> FieldOf(study, moduleName, field) == Ok("N/A")
    ensures ModuleOf(study, moduleName).Ok? && ModuleOf(study, moduleName).value.Obj?
      && !HasKey(ModuleOf(study, moduleName).value, field)
      ==> FieldOf(study, moduleName, field) == Ok("N/A")
  {
  }

  /** The summary line display_study_summary writes for one study. */
  function SummaryLine(study: Json): Result<string> {
    match FieldOf(study, "identificationModule", "nctId")
    case Err(e) => Err(e)
    case Ok(nctId) =>
      match FieldOf(study, "identificationModule", "briefTitle")
      case Err(e) => Err(e)
      case Ok(title) =>
        match FieldOf(study, "statusModule", "overallStatus")
        case Err(e) => Err(e)
        case Ok(status) =>
          Ok(SummaryText(nctId, title, status))
  }

  function SummaryText(nctId: string, title: string, status: string): string {
    "**NCT ID:** " + nctId + "  |  **Title:** " + title + "  |  **Status:** " + status
  }

  /** A study dict without a protocol section is summarised with N/A
      everywhere; a study that is not a dict raises. */
  lemma SummaryDefaults(study: Json)
    ensures study.Obj? && !HasKey(study, "protocolSection") ==>
      SummaryLine(study) == Ok(SummaryText("N/A", "N/A", "N/A"))
    ensures !study.Obj? ==> SummaryLine(study) == Err(AttributeError)
  {
    if study.Obj? && !HasKey(study, "protocolSection") {
      FieldDefaults(study, "identificationModule", "nctId");
      FieldDefaults(study, "identificationModule", "briefTitle");
      FieldDefaults(study, "statusModule", "overallStatus");
    }
  }

  const ContextLabels: seq<string> := ["NCT ID: ", "Title: ", "Status: ", "Details: ", "Eligibility: ", "Outcomes: "]

  /** The six values of the trial context, in order. */
  function ContextValues(selected: string, details: Json): (r: Result<seq<string>>)
    ensures r.Ok? ==> |r.value| == 6 && r.value[0] == selected
  {
    match FieldOf(details, "identificationModule", "briefTitle")
    case Err(e) => Err(e)
    case Ok(title) =>
      match FieldOf(details, "statusModule", "overallStatus")
      case Err(e) => Err(e)
      case Ok(status) =>
        match FieldOf(details, "descriptionModule", "briefSummary")
        case Err(e) => Err(e)
        case Ok(summary) =>
          match FieldOf(details, "eligibilityModule", "eligibilityCriteria")
          case Err(e) => Err(e)
          case Ok(eligibility) =>
            match FieldOf(details, "outcomesModule", "primaryOutcome")
            case Err(e) => Err(e)
            case Ok(outcomes) => Ok([selected, title, status, summary, eligibility, outcomes])
  }

  function Labelled(values: seq<string>): (r: seq<string>)
    requires |values| == 6
    ensures |r| == 6 && forall k :: 0 <= k < 6 ==> r[k] == ContextLabels[k] + values[k]
  {
    seq(6, k requires 0 <= k < 6 => ContextLabels[k] + values[k])
  }

  /** The trial_context string built for the selected trial. */
  function TrialContext(selected: string, details: Json): (r: Result<string>)
    ensures r.Ok? <==> ContextValues(selected, details).Ok?
    ensures r.Err? ==> r.error == ContextValues(selected, details).error
    ensures r.Ok? ==> StartsWith(r.value, "NCT ID: " + selected + "\n")
  {
    match ContextValues(selected, details)
    case Err(e) => Err(e)
    case Ok(values) =>
      var lines := Labelled(values);
      var out := Join("\n", lines);
      assert out == lines[0] + "\n" + Join("\n", lines[1..]);
      assert out[..|lines[0]| + 1] == lines[0] + "\n";
      Ok(out)
  }

  /** The five modules the trial context reads. */
  const ContextModules: seq<string> :=
    ["identificationModule", "statusModule", "descriptionModule", "eligibilityModule", "outcomesModule"]

  /** A read of the module raises: the details, their protocol section or
      the module is present but not a dict. */
  predicate ModuleBroken(details: Json, name: string) {
    ModuleOf(details, name).Err? || !ModuleOf(details, name).value.Obj?
  }

  /** Reading a field raises exactly when its module is broken. */
  lemma FieldFailsIff(details: Json, name: string, field: string)
    ensures FieldOf(details, name, field).Err? <==> ModuleBroken(details, name)
  {
  }

  /** Reading a module raises exactly when the details are not a dict or
      hold a protocol section that is not one. */
  lemma ModuleFailsIff(details: Json, name: string)
    ensures ModuleOf(details, name).Err? <==>
      !details.Obj? || (HasKey(details, "protocolSection") && !Index(details, "protocolSection").value.Obj?)
  {
  }

  /** The context raises exactly when one of its five modules is broken. */
  lemma ContextValuesFailIff(selected: string, details: Json)
    ensures ContextValues(selected, details).Err? <==>
      exists name :: name in ContextModules && ModuleBroken(details, name)
  {
    FieldFailsIff(details, ContextModules[0], "briefTitle");
    FieldFailsIff(details, ContextModules[1], "overallStatus");
    FieldFailsIff(details, ContextModules[2], "briefSummary");
    FieldFailsIff(details, ContextModules[3], "eligibilityCriteria");
    FieldFailsIff(details, ContextModules[4], "primaryOutcome");
  }

  /** The context raises exactly when the details, their protocol section or
      one of the five modules read is present but not a dict. */
  lemma ContextFailsIff(selected: string, details: Json)
    ensures TrialContext(selected, details).Err? <==>
      || !details.Obj?
      || (HasKey(details, "protocolSection") && !Index(details, "protocolSection").value.Obj?)
      || (exists name :: name in ContextModules && ModuleOf(details, name).Ok? && !ModuleOf(details, name).value.Obj?)
  {
    ContextValuesFailIff(selected, details);
    ModuleFailsIff(details, ContextModules[1]);
    if exists name :: name in ContextModules && ModuleBroken(details, name) {
      var name :| name in ContextModules && ModuleBroken(details, name);
      ModuleFailsIff(details, name);
    }
  }

  /** When no value holds a newline, the context is six lines, each made of
      its label followed by its value, in the fixed order NCT ID, Title,
      Status, Details, Eligibility, Outcomes. */
  lemma ContextLines(selected: string, details: Json)
    requires ContextValues(selected, details).Ok?
    requires forall k :: 0 <= k < 6 ==> '\n' !in ContextValues(selected, details).value[k]
    ensures var lines := Split(TrialContext(selected, details).value, '\n');
      |lines| == 6 && forall k :: 0 <= k < 6 ==> lines[k] == ContextLabels[k] + ContextValues(selected, details).value[k]
  {
    var values := ContextValues(selected, details).value;
    var ls := Labelled(values);
    forall k | 0 <= k < 6 ensures '\n' !in ls[k] {
      assert '\n' !in ContextLabels[k];
    }
    SplitJoin(ls, '\n');
  }

  /** Details without a protocol section give "N/A" for all five fields. */
  lemma ContextDefaults(selected: string, details: Json)
    requires details.Obj? && !HasKey(details, "protocolSection")
    ensures ContextValues(selected, details) == Ok([selected, "N/A", "N/A", "N/A", "N/A", "N/A"])
  {
  }

  // ---------------------------------------------------------------------
  // Session state

  /** The "role" of a chat_history entry: "user" or "assistant". */
  datatype Role = User | Assistant

  datatype ChatMessage = ChatMessage(role: Role, content: string)

  /** st.session_state.trial_details and st.session_state.chat_history. */
  class TrialSession {
    var trialDetails: map<string, Json>
    var chatHistory: map<string, seq<ChatMessage>>

    constructor ()
      ensures trialDetails == map[] && chatHistory == map[]
    {
      trialDetails := map[];
      chatHistory := map[];
    }

    /** view_details_callback: `fetched` is what fetch_trial_details returned
        (None on any failure). Only a truthy value is stored. */
    method ViewDetailsCallback(nctId: string, fetched: Json)
      modifies this
      ensures Truthy(fetched) ==> trialDetails == old(trialDetails)[nctId := fetched]
      ensures !Truthy(fetched) ==> trialDetails == old(trialDetails)
      ensures chatHistory == old(chatHistory)
    {
      if Truthy(fetched) {
        trialDetails := trialDetails[nctId := fetched];
      }
    }

    /** The chat section for the selected trial when "Send Message" is
        pressed: the context is built first (and may raise); a non-empty
        message appends the user entry, then the assistant's answer. */
    method SendMessage(selected: string, userMessage: string, reply: OllamaStream.Reply)
      returns (r: Result<string>)
      requires selected in trialDetails
      modifies this
      ensures trialDetails == old(trialDetails)
      ensures r == TrialContext(selected, old(trialDetails)[selected])
      ensures r.Err? || userMessage == "" ==> chatHistory == old(chatHistory)
      ensures r.Ok? && userMessage != "" ==>
        chatHistory == old(chatHistory)[selected :=
          (if selected in old(chatHistory) then old(chatHistory)[selected] else [])
          + [ChatMessage(User, userMessage),
             ChatMessage(Assistant, OllamaStream.Answer(reply, ""))]]
    {
      r := TrialContext(selected, trialDetails[selected]);
      if r.Err? || userMessage == "" {
        return;
      }
      var prompt, answer := AskAbout(selected, userMessage, r.value, reply);
    }

    /** The user's entry is appended to the trial's history (created empty
        when absent), the model is asked, and its answer appended. */
    method AskAbout(selected: string, userMessage: string, context: string, reply: OllamaStream.Reply)
      returns (prompt: string, answer: string)
      modifies this
      ensures trialDetails == old(trialDetails)
      ensures answer == OllamaStream.Answer(reply, "")
      ensures chatHistory == old(chatHistory)[selected :=
        (if selected in old(chatHistory) then old(chatHistory)[selected] else [])
        + [ChatMessage(User, userMessage), ChatMessage(Assistant, answer)]]
    {
      if selected !in chatHistory {
        chatHistory := chatHistory[selected := []];
      }
      var prior := chatHistory[selected];
      var asked := ChatMessage(User, userMessage);
      chatHistory := chatHistory[selected := prior + [asked]];
      prompt, answer := ChatWithTrial(userMessage, context, reply);
      var answered := ChatMessage(Assistant, answer);
      chatHistory := chatHistory[selected := chatHistory[selected] + [answered]];
      assert prior + [asked] + [answered] == prior + [asked, answered];
    }
  }
}
