/** The research-project sessions of PDF_summarizer/core/session_manager.py:
    one JSON file per session under sessions/<user_id>/, named after the
    project and the second it was created. The file system is a map from
    paths to the JSON value each file holds (json.dump followed by json.load
    gives the value back); the clock is a parameter. */
module Sessions {
  import opened Text
  import opened Py

  // ---------------------------------------------------------------------
  // The clock

  /** What datetime.now() returns. */
  datatype Moment = Moment(year: nat, month: nat, day: nat, hour: nat, minute: nat, second: nat, micro: nat)

  /** The ranges a datetime keeps its fields in; years of four digits. */
  predicate Valid(m: Moment) {
    1000 <= m.year <= 9999 && 1 <= m.month <= 12 && 1 <= m.day <= 31
      && m.hour < 24 && m.minute < 60 && m.second < 60 && m.micro < 1000000
  }

  /** strftime('%Y%m%d_%H%M%S'). */
  function Stamp(m: Moment): string {
    ZeroPad(m.year, 4) + ZeroPad(m.month, 2) + ZeroPad(m.day, 2) + "_"
      + ZeroPad(m.hour, 2) + ZeroPad(m.minute, 2) + ZeroPad(m.second, 2)
  }

  /** isoformat(): the microseconds appear only when they are not zero. */
  function Iso(m: Moment): string {
    ZeroPad(m.year, 4) + "-" + ZeroPad(m.month, 2) + "-" + ZeroPad(m.day, 2) + "T"
      + ZeroPad(m.hour, 2) + ":" + ZeroPad(m.minute, 2) + ":" + ZeroPad(m.second, 2)
      + (if m.micro == 0 then "" else "." + ZeroPad(m.micro, 6))
  }

  /** The two-digit and four-digit fields of a valid moment have exactly
      that many digits. */
  lemma FieldWidths(m: Moment)
    requires Valid(m)
    ensures |ZeroPad(m.year, 4)| == 4 && |ZeroPad(m.month, 2)| == 2 && |ZeroPad(m.day, 2)| == 2
    ensures |ZeroPad(m.hour, 2)| == 2 && |ZeroPad(m.minute, 2)| == 2 && |ZeroPad(m.second, 2)| == 2
    ensures |ZeroPad(m.micro, 6)| == 6
  {
    assert Pow10(2) == 100 && Pow10(4) == 10000 && Pow10(6) == 1000000;
    ZeroPadWidth(m.year, 4);
    ZeroPadWidth(m.month, 2);
    ZeroPadWidth(m.day, 2);
    ZeroPadWidth(m.hour, 2);
    ZeroPadWidth(m.minute, 2);
    ZeroPadWidth(m.second, 2);
    ZeroPadWidth(m.micro, 6);
  }

  /** The stamp is fifteen characters, an underscore at position 8, and the
      digits of each field read back as that field. */
  lemma StampLayout(m: Moment)
    requires Valid(m)
    ensures |Stamp(m)| == 15 && Stamp(m)[8] == '_'
    ensures forall k :: 0 <= k < 15 && k != 8 ==> IsDigit(Stamp(m)[k])
    ensures DigitsValue(Stamp(m)[0..4]) == m.year
    ensures DigitsValue(Stamp(m)[4..6]) == m.month
    ensures DigitsValue(Stamp(m)[6..8]) == m.day
    ensures DigitsValue(Stamp(m)[9..11]) == m.hour
    ensures DigitsValue(Stamp(m)[11..13]) == m.minute
    ensures DigitsValue(Stamp(m)[13..15]) == m.second
  {
    FieldWidths(m);
    var s := Stamp(m);
    assert s[0..4] == ZeroPad(m.year, 4);
    assert s[4..6] == ZeroPad(m.month, 2);
    assert s[6..8] == ZeroPad(m.day, 2);
    assert s[9..11] == ZeroPad(m.hour, 2);
    assert s[11..13] == ZeroPad(m.minute, 2);
    assert s[13..15] == ZeroPad(m.second, 2);
  }

  /** Two moments stamp alike exactly when they fall in the same second. */
  lemma StampSameSecond(m1: Moment, m2: Moment)
    requires Valid(m1) && Valid(m2)
    ensures Stamp(m1) == Stamp(m2) <==> m1.(micro := 0) == m2.(micro := 0)
  {
    if Stamp(m1) == Stamp(m2) {
      StampLayout(m1);
      StampLayout(m2);
    }
  }

  /** isoformat() is 19 characters, or 26 with microseconds, laid out as
      YYYY-MM-DDTHH:MM:SS. */
  lemma IsoLayout(m: Moment)
    requires Valid(m)
    ensures |Iso(m)| == if m.micro == 0 then 19 else 26
    ensures Iso(m)[4] == '-' && Iso(m)[7] == '-' && Iso(m)[10] == 'T'
    ensures Iso(m)[13] == ':' && Iso(m)[16] == ':'
    ensures m.micro != 0 ==> Iso(m)[19] == '.'
  {
    FieldWidths(m);
  }

  // ---------------------------------------------------------------------
  // Session ids and files

  /** f"{project_name}_{stamp}". */
  function SessionId(projectName: string, now: Moment): string {
    projectName + "_" + Stamp(now)
  }

  /** The id gives back the project name and the second of creation, even
      when the project name holds underscores itself. */
  lemma SessionIdInjective(p1: string, m1: Moment, p2: string, m2: Moment)
    requires Valid(m1) && Valid(m2)
    ensures SessionId(p1, m1) == SessionId(p2, m2) <==>
      p1 == p2 && m1.(micro := 0) == m2.(micro := 0)
  {
    StampLayout(m1);
    StampLayout(m2);
    StampSameSecond(m1, m2);
    if SessionId(p1, m1) == SessionId(p2, m2) {
      SuffixSplit(p1, Stamp(m1), p2, Stamp(m2));
    }
  }

  /** Two strings joined by "_" to suffixes of one length come apart at
      the same place. */
  lemma SuffixSplit(p1: string, s1: string, p2: string, s2: string)
    requires |s1| == |s2| && p1 + "_" + s1 == p2 + "_" + s2
    ensures p1 == p2 && s1 == s2
  {
    var id := p1 + "_" + s1;
    assert p1 == id[..|p1|] && p2 == id[..|p2|];
    assert s1 == id[|p1| + 1..] && s2 == id[|p2| + 1..];
  }

  /** f"{session_dir}/{session_id}.json". */
  function SessionPath(sessionDir: string, sessionId: string): string {
    sessionDir + "/" + sessionId + ".json"
  }

  /** Different ids are different files. */
  lemma SessionPathInjective(dir: string, a: string, b: string)
    ensures SessionPath(dir, a) == SessionPath(dir, b) <==> a == b
  {
    if SessionPath(dir, a) == SessionPath(dir, b) {
      assert |a| == |b|;
      assert a == SessionPath(dir, a)[|dir| + 1..|dir| + 1 + |a|];
      assert b == SessionPath(dir, b)[|dir| + 1..|dir| + 1 + |b|];
    }
  }

  /** The record create_session writes. */
  function NewSession(projectName: string, created: string): Json {
    Obj([Member("project", Str(projectName)), Member("created", Str(created)),
         Member("papers", Arr([])), Member("summaries", Obj([]))])
  }

  /** The dict appended to a session's papers: title, pmid and year default
      to "", the storage path is required. */
  function PaperEntry(paperData: Json): (r: Result<Json>)
    ensures r.Err? <==> !HasKey(paperData, "storage_path")
    ensures r.Err? ==> r.error == if paperData.Obj? then KeyError("storage_path") else AttributeError
    ensures r.Ok? ==> r.value.Obj? && |r.value.members| == 4
    ensures r.Ok? ==> r.value.members[3] == Member("path", Index(paperData, "storage_path").value)
    ensures r.Ok? ==> forall k :: 0 <= k < 3 ==>
      var key := ["title", "pmid", "year"][k];
      r.value.members[k] == Member(key, Get(paperData, key, Str("")).value)
  {
    if !paperData.Obj? then Err(AttributeError)
    else
      var title := Get(paperData, "title", Str("")).value;
      var pmid := Get(paperData, "pmid", Str("")).value;
      var year := Get(paperData, "year", Str("")).value;
      match Index(paperData, "storage_path")
      case Err(e) => Err(e)
      case Ok(path) =>
        Ok(Obj([Member("title", title), Member("pmid", pmid), Member("year", year), Member("path", path)]))
  }

  /** The members with the first binding of `key` given the value v. */
  function Rebind(ms: seq<Member>, key: string, v: Json): (r: seq<Member>)
    ensures |r| == |ms|
  {
    if |ms| == 0 then []
    else if ms[0].key == key then [Member(key, v)] + ms[1..]
    else [ms[0]] + Rebind(ms[1..], key, v)
  }

  /** Rebinding changes what the key looks up to and nothing else: the
      order of the keys and every other key's value stay as they were. */
  lemma {:induction false} RebindLookup(ms: seq<Member>, key: string, v: Json, other: string)
    requires Lookup(ms, key).Some?
    ensures Lookup(Rebind(ms, key, v), key) == Some(v)
    ensures other != key ==> Lookup(Rebind(ms, key, v), other) == Lookup(ms, other)
    ensures forall k :: 0 <= k < |ms| ==> Rebind(ms, key, v)[k].key == ms[k].key
  {
    if ms[0].key != key {
      RebindLookup(ms[1..], key, v, other);
    }
  }

  /** What add_paper does to the loaded session: session["papers"] must be a
      list, then the new entry is appended to it. */
  function AppendPaper(session: Json, paperData: Json): (r: Result<Json>)
  {
    match Index(session, "papers")
    case Err(e) => Err(e)
    case Ok(papers) =>
      if !papers.Arr? then Err(AttributeError)
      else match PaperEntry(paperData)
        case Err(e) => Err(e)
        case Ok(entry) => Ok(Obj(Rebind(session.members, "papers", Arr(papers.items + [entry]))))
  }

  /** add_paper fails exactly when the session has no list of papers or the
      paper has no storage path, and otherwise appends one entry, at the
      end, and changes no other member of the session. */
  lemma AppendPaperMeaning(session: Json, paperData: Json, other: string)
    ensures AppendPaper(session, paperData).Ok? <==>
      HasKey(session, "papers") && Index(session, "papers").value.Arr? && HasKey(paperData, "storage_path")
    ensures !HasKey(session, "papers") ==> AppendPaper(session, paperData) == Err(Index(session, "papers").error)
    ensures HasKey(session, "papers") && !Index(session, "papers").value.Arr? ==>
      AppendPaper(session, paperData) == Err(AttributeError)
    ensures AppendPaper(session, paperData).Ok? ==>
      var after := AppendPaper(session, paperData).value;
      && Index(after, "papers") == Ok(Arr(Index(session, "papers").value.items + [PaperEntry(paperData).value]))
      && (other != "papers" ==> Lookup(after.members, other) == Lookup(session.members, other))
  {
    if AppendPaper(session, paperData).Ok? {
      var papers := Index(session, "papers").value;
      RebindLookup(session.members, "papers", Arr(papers.items + [PaperEntry(paperData).value]), other);
    }
  }

  /** A fresh session's papers are the empty list. */
  lemma NewSessionPapers(projectName: string, created: string)
    ensures Index(NewSession(projectName, created), "papers") == Ok(Arr([]))
  {
    var ms := NewSession(projectName, created).members;
    assert |"project"| == 7 && |"created"| == 7 && |"papers"| == 6;
    assert Lookup(ms, "papers") == Lookup(ms[1..], "papers") == Lookup(ms[2..], "papers");
  }

  lemma NewSessionRebind(projectName: string, created: string, v: Json)
    ensures Rebind(NewSession(projectName, created).members, "papers", v)
      == [Member("project", Str(projectName)), Member("created", Str(created)),
          Member("papers", v), Member("summaries", Obj([]))]
  {
    var ms := NewSession(projectName, created).members;
    assert |"project"| == 7 && |"created"| == 7 && |"papers"| == 6;
    assert Rebind(ms, "papers", v) == [ms[0]] + Rebind(ms[1..], "papers", v);
    assert Rebind(ms[1..], "papers", v) == [ms[1]] + Rebind(ms[2..], "papers", v);
  }

  /** A paper added to a fresh session is its only paper. */
  lemma FirstPaper(projectName: string, created: string, paperData: Json)
    requires HasKey(paperData, "storage_path")
    ensures AppendPaper(NewSession(projectName, created), paperData)
      == Ok(Obj([Member("project", Str(projectName)), Member("created", Str(created)),
                 Member("papers", Arr([PaperEntry(paperData).value])), Member("summaries", Obj([]))]))
  {
    var entry := PaperEntry(paperData).value;
    NewSessionPapers(projectName, created);
    assert [] + [entry] == [entry];
    NewSessionRebind(projectName, created, Arr([entry]));
  }

  // ---------------------------------------------------------------------
  // The file system and the manager

  /** The files on disk, by path. */
  class Disk {
    var files: map<string, Json>

    constructor(files: map<string, Json>)
      ensures this.files == files
    {
      this.files := files;
    }
  }

  class SessionManager {
    const userId: string
    const sessionDir: string
    const disk: Disk

    /** __init__: the manager of one user's sessions. */
    constructor(userId: string, disk: Disk)
      ensures this.userId == userId && sessionDir == "sessions/" + userId && this.disk == disk
    {
      this.userId := userId;
      this.sessionDir := "sessions/" + userId;
      this.disk := disk;
    }

    /** create_session: the id is taken from `idTime` and the "created"
        field from `createdTime` (the source reads the clock twice). The
        file is written whether or not one is already there. */
    method CreateSession(projectName: string, idTime: Moment, createdTime: Moment) returns (sessionId: string)
      modifies disk
      ensures sessionId == SessionId(projectName, idTime)
      ensures disk.files == old(disk.files)[SessionPath(sessionDir, sessionId) := NewSession(projectName, Iso(createdTime))]
    {
      sessionId := projectName + "_" + Stamp(idTime);
      var sessionPath := sessionDir + "/" + sessionId + ".json";
      disk.files := disk.files[sessionPath := NewSession(projectName, Iso(createdTime))];
    }

    /** add_paper: a missing file raises, any error leaves the file as it
        was, and success writes the session back with the paper appended. */
    method AddPaper(sessionId: string, paperData: Json) returns (r: Result<()>)
      modifies disk
      ensures var path := SessionPath(sessionDir, sessionId);
        if path !in old(disk.files) then r == Err(FileNotFound(path)) && disk.files == old(disk.files)
        else match AppendPaper(old(disk.files)[path], paperData)
          case Err(e) => r == Err(e) && disk.files == old(disk.files)
          case Ok(after) => r == Ok(()) && disk.files == old(disk.files)[path := after]
    {
      var sessionPath := sessionDir + "/" + sessionId + ".json";
      if sessionPath !in disk.files {
        return Err(FileNotFound(sessionPath));
      }
      var session := disk.files[sessionPath];
      var papers := Index(session, "papers");
      if papers.Err? {
        return Err(papers.error);
      }
      if !papers.value.Arr? {
        return Err(AttributeError);
      }
      var entry := PaperEntry(paperData);
      if entry.Err? {
        return Err(entry.error);
      }
      var updated := Obj(Rebind(session.members, "papers", Arr(papers.value.items + [entry.value])));
      disk.files := disk.files[sessionPath := updated];
      r := Ok(());
    }

    /** get_session: the session's JSON, or FileNotFound. */
    method GetSession(sessionId: string) returns (r: Result<Json>)
      ensures var path := SessionPath(sessionDir, sessionId);
        r == if path in disk.files then Ok(disk.files[path]) else Err(FileNotFound(path))
    {
      var sessionPath := sessionDir + "/" + sessionId + ".json";
      if sessionPath !in disk.files {
        return Err(FileNotFound(sessionPath));
      }
      r := Ok(disk.files[sessionPath]);
    }
  }
}
