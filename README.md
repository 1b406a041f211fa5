# GenAI-and-Agents: a verified model of the core

This project models in Dafny the parts of the GenAI-and-Agents repository
that make decisions, not the parts that draw a user interface or call a
service. It covers:

- **ClinicalTrials.gov chat app** (`sample_main.py`). It builds the search
  parameters of the advanced search, normalising NCT identifiers from
  comma-separated to pipe-separated. It reads the summary fields of a study
  with `"N/A"` defaults and builds the six-line trial context. It keeps the
  fetched trial details and the per-trial chat history, and it asks a local
  Ollama model a question while reading the streamed reply.
- **Target safety agent** (`TSA-Agent/TSA_agent.py`). It fetches the nine
  data sources, reads nested values safely (`safe_get`), formats the
  protein report section by section, and streams the Ollama reply.
- **Biomedical research assistant** (`Biomed-Assistant/biomed_research.py`).
  It fetches PubMed papers one PMID at a time, stores only papers whose PMID
  is not yet in the vector store, and copies each retrieval score into its
  document's metadata.
- **PDF summariser core** (`PDF_summarizer/core/*.py`,
  `PDF_summarizer/utils/chat_utils.py`):
  - the statistics annotator (three regex substitutions, applied in turn);
  - `preprocess_content`;
  - the four section regexes of `extract_sections`;
  - the JSON session files of `SessionManager`;
  - the reference list of `format_chat_response`.

Python values are modelled by the `Json` datatype of `python.dfy`. That
module also holds dict lookup (an `Obj` is a list of members; no Python
dict can hold a key twice, and for such an `Obj` the model reads the first
binding by convention), `get` with a
default, `[...]` indexing with `KeyError`, `TypeError` and
`AttributeError`, truthiness, and `str()`. Python exceptions become the
`Err` side of a `Result`, so every error path the source reaches is a
value the contracts talk about. HTTP calls, the Entrez and Chroma
libraries and the Ollama server are inputs: a reply is a parameter, or a
function from request to answer. Objects whose state the source mutates
are classes:
- the session-state dicts of the Streamlit app (`TrialSession`);
- the Chroma collection (`ChromaIndex`);
- a retrieved LangChain `Document` (its metadata dict);
- the session directory on disk (`Disk`, `SessionManager`).

Loops in the source are methods with loop invariants, proved against
specification functions:
- the PubMed fetch;
- the NCT-id search parameters;
- the streamed reply;
- the retrieval score loop;
- `fetch_all_data`;
- `preprocess_content`;
- `annotate_numerics`.

## Model

| member | source | states |
|---|---|---|
| OllamaStream.CollectStream | sample_main.py:60-71 | reading the streamed lines gives exactly the specification Accumulate: the concatenated "response" fields up to and including the first chunk marked done, and whether a done chunk was seen |
| OllamaStream.Converse | sample_main.py:58-74 | the answer is the accumulated text when the POST succeeds and the given failure answer when it raises |
| OllamaStream.Accumulate | sample_main.py:60-71 | a done chunk was seen iff the stream holds a chunk marked done |
| OllamaStream.Answer | sample_main.py:58-74 | a failed POST gives the failure answer; a stream that reached a done chunk gives its accumulated text even if it broke afterwards |
| OllamaStream.AccumulateMeaning | sample_main.py:62-68 | the accumulated text is the responses of the chunks before the first done chunk plus that chunk's, or of all chunks when none is done |
| OllamaStream.DoneStopsReading | sample_main.py:67-68 | once a done chunk has been read, anything streamed after it changes nothing |
| OllamaStream.NoiseIgnored | sample_main.py:63-70 | an empty line or a line that fails to parse can be removed anywhere without changing the result |
| OllamaStream.NoDoneEndings | sample_main.py:71-74 | without a done chunk the answer is all responses; if the stream breaks, the answer is the failure answer whatever was read |
| ClinicalTrialsApp.TrialPromptLayout | sample_main.py:45-49 | the prompt is the "Clinical Trial Details:" header, the context, a blank line, "User: " with the message, then "Assistant:", at the stated offsets |
| ClinicalTrialsApp.ChatWithTrial | sample_main.py:38-74 | sends exactly that prompt and returns the streamed answer, "" when the request fails |
| ClinicalTrialsApp.Cleaned | sample_main.py:185 | the kept pieces are never longer than the input, non-empty, and start and end in a non-space |
| ClinicalTrialsApp.KeyNamesDistinct | sample_main.py:173-186 | the seven parameter names are pairwise distinct, so the map of keys models the dict faithfully |
| ClinicalTrialsApp.AdvancedSearchParams | sample_main.py:173-186 | pageSize, format "json" and markupFormat "markdown" are always present; each optional filter is present iff its input is non-empty and then holds it; filter.ids holds the normalised NCT ids |
| ClinicalTrialsApp.CleanedAppend | sample_main.py:185 | cleaning distributes over concatenation of piece lists |
| ClinicalTrialsApp.NormalizeNctIds | sample_main.py:185 | the normalised id list contains no comma |
| ClinicalTrialsApp.NctIdsOrder | sample_main.py:185 | the ids of "a,b" are the ids of a followed by the ids of b: order is kept |
| ClinicalTrialsApp.NctIdsRoundTrip | sample_main.py:185 | splitting the normalised string on '\|' gives back exactly the stripped, non-blank comma pieces |
| ClinicalTrialsApp.NctIdsAllBlank | sample_main.py:184-186 | an input of only commas and spaces gives an empty filter.ids |
| ClinicalTrialsApp.FieldDefaults | sample_main.py:86-90 | a missing protocolSection, module or field reads as "N/A" |
| ClinicalTrialsApp.SummaryDefaults | sample_main.py:86-92 | a study without protocolSection shows N/A for id, title and status; a study that is not a dict raises AttributeError |
| ClinicalTrialsApp.ContextValues | sample_main.py:219-240 | six values, the first the selected NCT id |
| ClinicalTrialsApp.Labelled | sample_main.py:233-240 | each of the six values is prefixed with its own label in order |
| ClinicalTrialsApp.FieldFailsIff | sample_main.py:219-223 | reading a field fails exactly when the details or its module are not dicts |
| ClinicalTrialsApp.ModuleFailsIff | sample_main.py:219-223 | reading a module fails exactly when the details or protocolSection are not dicts |
| ClinicalTrialsApp.ContextValuesFailIff | sample_main.py:219-240 | the context values fail exactly when one of the five modules is broken |
| ClinicalTrialsApp.TrialContext | sample_main.py:233-240 | the context exists iff its six values do, a failure is theirs, and it starts with the line "NCT ID: " and the selected id |
| ClinicalTrialsApp.ContextFailsIff | sample_main.py:219-240 | building the trial context fails exactly when one of the five modules is broken |
| ClinicalTrialsApp.ContextLines | sample_main.py:233-240 | when the values hold no newline, the context splits into exactly the six labelled lines |
| ClinicalTrialsApp.ContextDefaults | sample_main.py:219-240 | details without protocolSection give the id followed by five "N/A" |
| ClinicalTrialsApp.TrialSession.constructor | sample_main.py:24-30 | trial details and chat history start empty |
| ClinicalTrialsApp.TrialSession.ViewDetailsCallback | sample_main.py:32-36 | truthy fetched details are stored under the id; falsy ones change nothing; chat history untouched |
| ClinicalTrialsApp.TrialSession.SendMessage | sample_main.py:217-253 | the context is built from the stored details; on an error or an empty message the history is unchanged; otherwise the user and assistant messages are appended to that trial's history |
| ClinicalTrialsApp.TrialSession.AskAbout | sample_main.py:245-253 | appends the user message then the streamed answer to the trial's history, creating it if absent; details unchanged |
| TsaAgent.FetchAllData | TSA-Agent/TSA_agent.py:43-67 | the result has exactly the nine endpoint keys, each bound to that endpoint's answer |
| TsaAgent.SafeGet | TSA-Agent/TSA_agent.py:72-79 | an empty key path gives the data itself |
| TsaAgent.SafeGetOne | TSA-Agent/TSA_agent.py:72-79 | one string key on a dict is dict.get with the default; on a non-dict it is the default |
| TsaAgent.SafeGetIntKey | TSA-Agent/TSA_agent.py:74-76 | an integer key anywhere on the path gives the default |
| TsaAgent.SafeGetAppend | TSA-Agent/TSA_agent.py:74-79 | with a non-dict default, following a path a+b is following a, then b from there |
| TsaAgent.SafeGetOfDefault | TSA-Agent/TSA_agent.py:74-78 | a safe get on the default (a non-dict) stays the default |
| TsaAgent.Listed | TSA-Agent/TSA_agent.py:86-95 | `(x or [])[:n]`: falsy gives [], a list gives its first n items, a string its first n characters, a truthy dict or number raises |
| TsaAgent.Picked | TSA-Agent/TSA_agent.py:86-95 | field values are picked item by item in order; a failure is the error of some item |
| TsaAgent.Strings | TSA-Agent/TSA_agent.py:85-96 | the join succeeds iff every picked value is a string; otherwise TypeError |
| TsaAgent.ListNames | TSA-Agent/TSA_agent.py:85-96 | at most n names; none for a falsy section |
| TsaAgent.NullSections | TSA-Agent/TSA_agent.py:86-95 | a null DisGeNET answer lists nothing, while null ChEMBL, FAERS and trial answers raise AttributeError |
| TsaAgent.FaersMissingTerm | TSA-Agent/TSA_agent.py:91-93 | a FAERS event without "term" raises KeyError("term") |
| TsaAgent.PickedFirstError | TSA-Agent/TSA_agent.py:86-95 | the first item that fails decides the error |
| TsaAgent.SectionValues | TSA-Agent/TSA_agent.py:83-97 | seven section values when formatting succeeds |
| TsaAgent.SectionLines | TSA-Agent/TSA_agent.py:83-97 | each value is put after its bold section title, in order |
| TsaAgent.FormatProteinData | TSA-Agent/TSA_agent.py:81-99 | the report exists iff the seven section values do, a failure is theirs, and it starts with the "### Protein: " header line |
| TsaAgent.ReportIsJoin | TSA-Agent/TSA_agent.py:81-97 | the header plus the appended lines is the newline join of header and lines |
| TsaAgent.ReportLayout | TSA-Agent/TSA_agent.py:81-99 | the report starts with "### Protein: name", and when values hold no newline it splits into the header, blank line and seven section lines |
| TsaAgent.UniprotOmimAlwaysDefault | TSA-Agent/TSA_agent.py:83-84 | UniProt and OMIM sections always read "No data available", whatever was fetched |
| TsaAgent.NullFetchRaises | TSA-Agent/TSA_agent.py:88-96 | a failed (None) ChEMBL, FAERS or trials fetch makes the whole report raise |
| TsaAgent.ChatWithOllama | TSA-Agent/TSA_agent.py:101-128 | the answer is the streamed text, or the API error message when the request fails |
| BiomedResearch.ExtractPaper | Biomed-Assistant/biomed_research.py:28-37 | a paper is produced iff the record has an article with a title and, when AbstractText is present, at least one segment; its abstract is the first AbstractText segment, or "" when AbstractText is absent |
| BiomedResearch.FetchErrSticky | Biomed-Assistant/biomed_research.py:26-27 | a failed efetch makes the whole fetch fail, whatever comes after |
| BiomedResearch.FetchPubmedPapers | Biomed-Assistant/biomed_research.py:16-44 | the loop gives the specification fetch result, pausing once per stored paper |
| BiomedResearch.Kept | Biomed-Assistant/biomed_research.py:28-40 | the kept PMID positions are in range and strictly increasing |
| BiomedResearch.FetchFailsIff | Biomed-Assistant/biomed_research.py:26-27 | the fetch succeeds iff every efetch call answers |
| BiomedResearch.FetchKeepsOrder | Biomed-Assistant/biomed_research.py:23-37 | the k-th paper is extracted from the k-th kept PMID, in input order |
| BiomedResearch.FetchSkipsOnlyFailures | Biomed-Assistant/biomed_research.py:28-40 | a PMID is skipped only when its record yields no paper |
| BiomedResearch.PmidSet | Biomed-Assistant/biomed_research.py:55 | the set holds exactly the pmid metadata of the stored entries |
| BiomedResearch.EntriesFor | Biomed-Assistant/biomed_research.py:64-65 | one entry per paper, in order, text and metadata from that paper |
| BiomedResearch.ChromaIndex.constructor | Biomed-Assistant/biomed_research.py:53-54 | the index starts from the existing entries with no persist yet |
| BiomedResearch.ChromaIndex.StoreNewPapers | Biomed-Assistant/biomed_research.py:51-67 | an entry without pmid raises KeyError; otherwise only papers with an unseen PMID are added, in order, with one persist, and nothing is written when there are none |
| BiomedResearch.NewPapersMembers | Biomed-Assistant/biomed_research.py:57 | a paper is new iff it is in the batch and its PMID is not stored |
| BiomedResearch.NewPapersAppend | Biomed-Assistant/biomed_research.py:57 | filtering a concatenated batch is concatenating the filtered parts |
| BiomedResearch.BatchDuplicatesKept | Biomed-Assistant/biomed_research.py:55-57 | two new papers with the same PMID in one batch are both stored |
| BiomedResearch.EntriesPmids | Biomed-Assistant/biomed_research.py:64-65 | stored entries carry exactly the PMIDs of their papers |
| BiomedResearch.PmidSetAppend | Biomed-Assistant/biomed_research.py:55 | the PMID set of appended entries is the union |
| BiomedResearch.AllKnownNothingNew | Biomed-Assistant/biomed_research.py:57-62 | when every PMID is stored, there is nothing new |
| BiomedResearch.StoreTwiceAddsNothing | Biomed-Assistant/biomed_research.py:51-67 | storing the same batch a second time adds nothing |
| BiomedResearch.Document.constructor | Biomed-Assistant/biomed_research.py:73 | a document holds its content and metadata |
| BiomedResearch.LastScore | Biomed-Assistant/biomed_research.py:76-77 | no score iff the document is not among the results |
| BiomedResearch.RetrieveRelevantPapers | Biomed-Assistant/biomed_research.py:70-78 | returns the documents in result order, each metadata with distance_score set to the last score of that document |
| BiomedResearch.DistinctScores | Biomed-Assistant/biomed_research.py:76-77 | when documents are distinct objects, each gets its own score |
| NumericalProcessor.ComparisonSound | PDF_summarizer/core/numerical_processor.py:7-9 | a p-value or correlation match is the letter, spaces, the operator, spaces, then a run of digits and dots, and it ends where that run ends |
| NumericalProcessor.ComparisonComplete | PDF_summarizer/core/numerical_processor.py:7-9 | every prefix of that shape is covered by the match, and a maximal one is the match |
| NumericalProcessor.PercentSound | PDF_summarizer/core/numerical_processor.py:8 | a percentage match is digits, an optional dot and digits, spaces, then '%' |
| NumericalProcessor.PercentComplete | PDF_summarizer/core/numerical_processor.py:8 | every prefix of that shape is the match |
| NumericalProcessor.PercentEnds | PDF_summarizer/core/numerical_processor.py:8 | a non-empty percentage match ends with '%' |
| NumericalProcessor.MatchChars | PDF_summarizer/core/numerical_processor.py:6-10 | a match uses only the characters its pattern allows |
| NumericalProcessor.MatchWhole | PDF_summarizer/core/numerical_processor.py:6-10 | a non-empty match is matched entirely by its own pattern |
| NumericalProcessor.MatchLocal | PDF_summarizer/core/numerical_processor.py:6-10 | text after a '[' never changes a match |
| NumericalProcessor.AnnotateNumerics | PDF_summarizer/core/numerical_processor.py:60-69 | the loop over the three patterns gives the specification Annotate |
| NumericalProcessor.ReSub | PDF_summarizer/core/numerical_processor.py:63-68 | the left-to-right scan (write the replacement of a match and resume after it, else copy one character) computes the substitution SubWith |
| NumericalProcessor.PassesAll | PDF_summarizer/core/numerical_processor.py:62-68 | running the passes in order is Annotate |
| NumericalProcessor.SubMatch | PDF_summarizer/core/numerical_processor.py:63-68 | at a match, the match is wrapped in its tag and the substitution continues after it |
| NumericalProcessor.SubConcat | PDF_summarizer/core/numerical_processor.py:63-68 | a substitution distributes over a split x+y when no match in x depends on y |
| NumericalProcessor.SubAtBracket | PDF_summarizer/core/numerical_processor.py:63-68 | a substitution distributes over text split before a '[' |
| NumericalProcessor.Sub | PDF_summarizer/core/numerical_processor.py:63-68 | re.sub with one pattern: a text in which the pattern matches nowhere is returned unchanged |
| NumericalProcessor.Annotate | PDF_summarizer/core/numerical_processor.py:60-69 | the three substitutions in order: a text with no statistic is returned unchanged |
| NumericalProcessor.TagsQuiet | PDF_summarizer/core/numerical_processor.py:65 | no pattern matches anywhere inside an opening or closing tag |
| NumericalProcessor.BodyNoMatch | PDF_summarizer/core/numerical_processor.py:6-10 | no later pattern matches inside an earlier tag's body |
| NumericalProcessor.TagSkip | PDF_summarizer/core/numerical_processor.py:62-68 | a later pass copies an earlier tag untouched |
| NumericalProcessor.SubPiecesSound | PDF_summarizer/core/numerical_processor.py:63-68 | each piece of one pass is a whole match of its pattern |
| NumericalProcessor.PiecesRender | PDF_summarizer/core/numerical_processor.py:63-68 | a pass is the rendering of its pieces |
| NumericalProcessor.PiecesContent | PDF_summarizer/core/numerical_processor.py:63-68 | the pieces of a pass hold the original text |
| NumericalProcessor.PassRender | PDF_summarizer/core/numerical_processor.py:62-68 | a later pass over a rendered result is the rendering of the refined pieces |
| NumericalProcessor.PassContent | PDF_summarizer/core/numerical_processor.py:62-68 | a later pass keeps the original text |
| NumericalProcessor.PassSound | PDF_summarizer/core/numerical_processor.py:62-68 | after a pass, every tag is a whole match of a pattern already run |
| NumericalProcessor.AnnotateSound | PDF_summarizer/core/numerical_processor.py:60-69 | every tag of the result wraps a whole match of its own pattern |
| NumericalProcessor.AnnotateRender | PDF_summarizer/core/numerical_processor.py:60-69 | the result is the rendering of its pieces |
| NumericalProcessor.AnnotateContent | PDF_summarizer/core/numerical_processor.py:60-69 | the pieces hold the original text |
| NumericalProcessor.EraseRender | PDF_summarizer/core/numerical_processor.py:65 | erasing the tags of rendered pieces gives their text |
| NumericalProcessor.EraseAnnotate | PDF_summarizer/core/numerical_processor.py:60-69 | for a text without '[', removing the tags from the annotated text gives back the input |
| NumericalProcessor.EraseNeedsNoBracket | PDF_summarizer/core/numerical_processor.py:60-69 | a text that already holds "[/STAT]" is left unchanged by the annotator, yet erasing tags from it gives "": the string round trip needs the '[' restriction |
| NumericalProcessor.AnnotatePValue | PDF_summarizer/core/numerical_processor.py:65 | a text that is one whole p-value is wrapped as a whole in one tag |
| NumericalProcessor.ExamplePValue | PDF_summarizer/core/numerical_processor.py:60-69 | "p < 0.05" becomes "[STAT:P_VALUE]p < 0.05[/STAT]" |
| NumericalProcessor.ExamplePercentAfterPValue | PDF_summarizer/core/numerical_processor.py:62-68 | in "p=5%" the p-value pass takes "p=5" first, so the percentage is never tagged |
| NumericalProcessor.StandardizeAll | PDF_summarizer/core/numerical_processor.py:17 | tables are standardized one by one, in order; the first failure is the error |
| NumericalProcessor.StandardizeFirstError | PDF_summarizer/core/numerical_processor.py:17 | the first table that fails decides the error |
| NumericalProcessor.PreprocessContent | PDF_summarizer/core/numerical_processor.py:12-25 | the loop computes Preprocess: the call always raises, with AttributeError for a non-dict, the error of the first table that fails, KeyError for a missing text, TypeError for a text that is not a string, and otherwise NameError for the undefined extract_statistics |
| NumericalProcessor.PreprocessReachesStatistics | PDF_summarizer/core/numerical_processor.py:12-25 | NameError is raised iff the content has tables, every table standardizes, and it has text |
| NumericalProcessor.Preprocess | PDF_summarizer/core/numerical_processor.py:12-25 | a non-dict raises AttributeError; a missing "tables" key means no tables, and then a missing text raises KeyError('text'), a non-string text TypeError, and a string text NameError |
| PdfSections.ExtractSections | PDF_summarizer/core/pdf_processor.py:41-53 | every section value is stripped, shorter than the text and made of its characters (ExtractMeaning says which sections are present and what they hold) |
| PdfSections.GroupEnd | PDF_summarizer/core/pdf_processor.py:44-47 | the lazy group ends at the first stop position after its first character, or nowhere |
| PdfSections.SearchFromSound | PDF_summarizer/core/pdf_processor.py:50 | a found span lies at a keyword occurrence and is a viable lazy group |
| PdfSections.SearchFromComplete | PDF_summarizer/core/pdf_processor.py:50 | any viable keyword position at or after the start is found |
| PdfSections.SearchMeaning | PDF_summarizer/core/pdf_processor.py:49-52 | the search finds something iff a viable keyword position exists, and what it finds is the leftmost one |
| PdfSections.ExtractMeaning | PDF_summarizer/core/pdf_processor.py:41-53 | a section is present iff its regex can match, and its value is the stripped first group of the leftmost match |
| PdfSections.EndViable | PDF_summarizer/core/pdf_processor.py:44 | a keyword followed by at least one character is always viable when the text end is a stop |
| PdfSections.WordViable | PDF_summarizer/core/pdf_processor.py:45-46 | a keyword is viable iff a stop word occurs later with at least one character between |
| PdfSections.EndedSectionFound | PDF_summarizer/core/pdf_processor.py:44-53 | abstract and conclusions are present iff their keyword occurs with at least one character after it |
| PdfSections.WordedSectionFound | PDF_summarizer/core/pdf_processor.py:45-53 | methods and results are present iff their keyword occurs followed later by the next section's word with a gap |
| PdfSections.BlankSection | PDF_summarizer/core/pdf_processor.py:50 | a present section's value is empty iff its group is all whitespace |
| PdfSections.ConclusionsExample | PDF_summarizer/core/pdf_processor.py:47-50 | in "Conclusions: ok" the keyword CONCLUSION matches case-insensitively, so the section is "s: ok" |
| Sessions.StampLayout | PDF_summarizer/core/session_manager.py:14 | the id timestamp is 15 characters with '_' at 8, digits elsewhere, and each slice reads back as its field |
| Sessions.StampSameSecond | PDF_summarizer/core/session_manager.py:14 | two moments give the same timestamp iff they agree up to the second |
| Sessions.IsoLayout | PDF_summarizer/core/session_manager.py:20 | the created time is 19 characters, or 26 with microseconds, with the separators in place |
| Sessions.SessionIdInjective | PDF_summarizer/core/session_manager.py:14 | two sessions share an id iff same project and same second |
| Sessions.SessionPathInjective | PDF_summarizer/core/session_manager.py:15 | different ids give different session files |
| Sessions.PaperEntry | PDF_summarizer/core/session_manager.py:33-38 | the entry fails iff storage_path is missing; otherwise title, pmid, year (default "") and path in that order |
| Sessions.Rebind | PDF_summarizer/core/session_manager.py:33 | rebinding a key keeps the number of members |
| Sessions.RebindLookup | PDF_summarizer/core/session_manager.py:33 | after rebinding, the key reads the new value and every other key reads as before |
| Sessions.AppendPaperMeaning | PDF_summarizer/core/session_manager.py:33-38 | appending succeeds iff the session has a papers list and the paper a storage_path; the papers gain exactly the new entry at the end; other keys are unchanged |
| Sessions.FirstPaper | PDF_summarizer/core/session_manager.py:17-38 | a new session gets a one-paper list on its first append |
| Sessions.SessionManager.constructor | PDF_summarizer/core/session_manager.py:6-10 | the manager's directory is the user's sessions directory |
| Sessions.SessionManager.CreateSession | PDF_summarizer/core/session_manager.py:12-25 | returns the project-and-timestamp id and writes the new empty session under its path, leaving other files |
| Sessions.SessionManager.AddPaper | PDF_summarizer/core/session_manager.py:27-40 | a missing file raises FileNotFoundError; an error leaves the files unchanged; otherwise the file is rewritten with the paper appended |
| Sessions.SessionManager.GetSession | PDF_summarizer/core/session_manager.py:42-45 | returns the stored session, or FileNotFoundError for its path |
| ChatFormat.Cut | PDF_summarizer/utils/chat_utils.py:30 | `[:500]` keeps the first min(len, 500) characters or items; other values raise TypeError |
| ChatFormat.SourceEntryOk | PDF_summarizer/utils/chat_utils.py:28-30 | an entry exists iff the source has metadata with a title and a string or list text; metadata is checked first |
| ChatFormat.StringSourceEntry | PDF_summarizer/utils/chat_utils.py:28-30 | a string text is quoted up to 500 characters and always followed by "..." |
| ChatFormat.EntriesWith | PDF_summarizer/utils/chat_utils.py:28-30 | entries are made in order, one per source; a failure is the first source that fails |
| ChatFormat.FormatChatResponse | PDF_summarizer/utils/chat_utils.py:25-31 | succeeds iff the response has an answer and every source is well formed; a missing answer is reported first |
| ChatFormat.FormatLayout | PDF_summarizer/utils/chat_utils.py:25-31 | the reply is the answer, the REFERENCES header, then the entries joined by blank lines, the k-th starting "Source k+1 (" |
| ChatFormat.NoSources | PDF_summarizer/utils/chat_utils.py:28-31 | with no sources the reply ends right after the header |
| ChatFormat.FirstBadSource | PDF_summarizer/utils/chat_utils.py:28-30 | the first malformed source decides the error |

## Left out

- The Streamlit user interface is not modelled: widgets, markdown output, `st.error` messages and the NCT-ID and Condition search modes of `sample_main.py`. The session-state dicts are modelled as `TrialSession`.
- HTTP requests, Entrez, Chroma, LangChain and the Ollama server are not modelled. Their answers are parameters: a reply, a list of records, or a function from endpoint to JSON.
- Endpoint URLs and payload constants such as model name, token limit and temperature are not modelled, because they only reach the network.
- `time.sleep` and request timeouts are not modelled; the PubMed fetch counts its pauses instead.
- `fetch_all_data` runs its requests in a thread pool. The model runs them in sequence, which gives the same dictionary.
- Floating point is not modelled: scores are `real`.
- BiomedResearch.RetrieveRelevantPapers: stores the distance unrounded; `round(distance, 4)` is not modelled, because it acts on floats.
- Regex `\s` and `\d` and IGNORECASE are modelled over ASCII only; Unicode spaces, digits and case folding are not.
- `str()` of nested values does not escape quotes inside strings.
- Dict order of the sections result is not modelled: `ExtractSections` returns a map keyed by section.
- OllamaStream: decoding a streamed line is abstracted into `StreamLine`, which is either a parsed chunk or noise (an empty line or one that fails to parse).
- NumericalProcessor.PreprocessContent: `standardize_table` (pandas) is a parameter, so the in-place mutation of tables is not modelled. The processed copy is not modelled either, because the call always raises before returning it.
- Sessions.SessionManager.AddPaper: `json.dump` after `seek(0)` without `truncate` is modelled as a full rewrite. The appended session is never shorter, so the file ends up the same.
- Sessions: directory creation, file contents that are not JSON, and years before 1000 (`Valid` keeps `%Y` four digits) are not modelled.
- The TSA `__main__` prompt loop is not modelled.
- NumericalProcessor.EraseAnnotate: the round trip is proved for text without '['. For every text, AnnotateRender and AnnotateContent prove that the result renders pieces holding exactly the input; EraseNeedsNoBracket shows why the string form needs the restriction.
- TsaAgent.Listed and ChatFormat.Cut raise TypeError for a slice of a dict, as Python up to 3.11 does; Python 3.12 raises KeyError there instead.
- These files are not part of this model: vector_db, summarizer, quality_assessment, viz_utils, Test_API, the two app.py files, Biomed-Assistant/chat_utils.py, and `init_chat_session`.
