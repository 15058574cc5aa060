/** The controller's state file and its two kinds of writers: every save reads the file,
    merges its own section in, writes a temporary file and renames it, under a file lock. */
module StateFile {
  import opened Basics

  /** The file as a JSON object: the node section is every key but the fault ids. */
  datatype Doc = Doc(nodes: map<string, string>, faults: Option<seq<string>>)

  const EMPTY := Doc(map[], None)

  datatype Save = StatusSave(nodes: map<string, string>) | FaultSave(ids: seq<string>)

  /** A missing or unreadable file reads as an empty object. */
  function FileToJsonObj(file: Option<Doc>, readable: bool): Doc {
    if readable && file.Some? then file.value else EMPTY
  }

  function Ids(doc: Doc): seq<string> {
    if doc.faults.Some? then doc.faults.value else []
  }

  function Merge(existing: Doc, save: Save): Doc {
    match save
    case StatusSave(nodes) => Doc(nodes, existing.faults)
    case FaultSave(ids) => Doc(existing.nodes, Some(Ids(existing) + ids))
  }

  function LoadProcessFile(file: Option<Doc>): map<string, string> {
    FileToJsonObj(file, true).nodes
  }

  function LoadProcessedSwitchFaults(file: Option<Doc>): set<string> {
    IdSet(Ids(FileToJsonObj(file, true)))
  }

  function IdSet(ids: seq<string>): set<string> {
    set id | id in ids
  }

  // ----- one save after the other ------------------------------------------------------------------------------------

  datatype Completed = Completed(save: Save, readable: bool)

  /** The file after saves that ran one at a time. */
  function Serial(saves: seq<Completed>): Option<Doc> {
    if saves == [] then None
    else
      var last := saves[|saves| - 1];
      Some(Merge(FileToJsonObj(Serial(saves[..|saves| - 1]), last.readable), last.save))
  }

  /** The last node section saved. */
  function LastStatus(saves: seq<Completed>): map<string, string> {
    if saves == [] then map[]
    else if saves[|saves| - 1].save.StatusSave? then saves[|saves| - 1].save.nodes
    else LastStatus(saves[..|saves| - 1])
  }

  /** All fault ids saved. */
  function AllIds(saves: seq<Completed>): set<string> {
    if saves == [] then {}
    else
      AllIds(saves[..|saves| - 1])
      + if saves[|saves| - 1].save.FaultSave? then IdSet(saves[|saves| - 1].save.ids) else {}
  }

  /** The saves from the last one that could not read the file on; all if every one could. */
  function SinceUnreadable(saves: seq<Completed>): seq<Completed> {
    if saves == [] then []
    else if !saves[|saves| - 1].readable then [saves[|saves| - 1]]
    else SinceUnreadable(saves[..|saves| - 1]) + [saves[|saves| - 1]]
  }

  lemma {:induction false} AllReadable(saves: seq<Completed>)
    requires forall c | c in saves :: c.readable
    ensures SinceUnreadable(saves) == saves
  {
    if saves != [] {
      var n := |saves| - 1;
      assert saves == saves[..n] + [saves[n]];
      AllReadable(saves[..n]);
    }
  }

  /** What is loaded after serial saves, unreadable files included: each section is what was
      saved of it since the last save that could not read the file. */
  lemma {:induction false} LoadedAfterSerial(saves: seq<Completed>)
    ensures LoadProcessFile(Serial(saves)) == LastStatus(SinceUnreadable(saves))
    ensures LoadProcessedSwitchFaults(Serial(saves)) == AllIds(SinceUnreadable(saves))
  {
    if saves != [] {
      var n := |saves| - 1;
      LoadedAfterSerial(saves[..n]);
      var since := SinceUnreadable(saves);
      assert since[..|since| - 1] == if saves[n].readable then SinceUnreadable(saves[..n]) else [];
    }
  }

  // ----- writers step by step ----------------------------------------------------------------------------------------

  type WriterId = nat

  datatype Stage =
    | Waiting(save: Save)
    | Locked(save: Save)
    | Merged(save: Save, readable: bool, doc: Doc)
    | Written(save: Save, readable: bool)

  /** Writers that are not in `stages` are not saving. All share one temporary file. */
  datatype State = State(
    file: Option<Doc>, tmp: Option<Doc>, lock: Option<WriterId>, stages: map<WriterId, Stage>, completed: seq<Completed>)

  datatype Event =
    | Begin(w: WriterId, save: Save)
    | Acquire(w: WriterId)
    | Read(w: WriterId, readable: bool)
    | WriteTmp(w: WriterId)
    | Rename(w: WriterId)
    | Fail(w: WriterId, tmp: Option<Doc>)
    | Crash(tmp: Option<Doc>)
    | SaveServerList(nodes: map<string, string>)

  const INITIAL := State(None, None, None, map[], [])

  predicate Enabled(s: State, e: Event) {
    match e
    case Begin(w, _) => w !in s.stages
    case Acquire(w) => w in s.stages && s.stages[w].Waiting? && s.lock == None
    case Read(w, _) => w in s.stages && s.stages[w].Locked?
    case WriteTmp(w) => w in s.stages && s.stages[w].Merged?
    case Rename(w) => w in s.stages && s.stages[w].Written?
    case Fail(w, tmp) => w in s.stages && (tmp == s.tmp || s.stages[w].Merged?)
    case Crash(_) => true
    case SaveServerList(_) => s.lock == None
  }

  /** The end of a save, successful or not, releases the lock if it was held; a failed write
      may leave anything in the temporary file, and a crash frees all. The server list of the
      initial role decision overwrites the file without lock or merge, before any saver is at
      work, and so counts as a status save that did not read it. */
  function Next(s: State, e: Event): State
    requires Enabled(s, e)
  {
    match e
    case Begin(w, save) => s.(stages := s.stages[w := Waiting(save)])
    case Acquire(w) => s.(lock := Some(w), stages := s.stages[w := Locked(s.stages[w].save)])
    case Read(w, readable) =>
      var save := s.stages[w].save;
      s.(stages := s.stages[w := Merged(save, readable, Merge(FileToJsonObj(s.file, readable), save))])
    case WriteTmp(w) =>
      s.(tmp := Some(s.stages[w].doc), stages := s.stages[w := Written(s.stages[w].save, s.stages[w].readable)])
    case Rename(w) =>
      State(s.tmp, None, None, s.stages - {w}, s.completed + [Completed(s.stages[w].save, s.stages[w].readable)])
    case Fail(w, tmp) =>
      s.(tmp := tmp, lock := if s.stages[w].Waiting? then s.lock else None, stages := s.stages - {w})
    case SaveServerList(nodes) =>
      s.(file := Some(Doc(nodes, None)), completed := s.completed + [Completed(StatusSave(nodes), false)])
    case Crash(tmp) => s.(tmp := tmp, lock := None, stages := map[])
  }

  function Run(s: State, events: seq<Event>): Option<State> {
    if events == [] then Some(s)
    else
      var before := Run(s, events[..|events| - 1]);
      if before.Some? && Enabled(before.value, events[|events| - 1])
      then Some(Next(before.value, events[|events| - 1])) else None
  }

  /** The file is that of the completed saves one after the other, and the writer in the
      critical section is about to add its own to exactly that file. */
  ghost predicate Inv(s: State) {
    && s.file == Serial(s.completed)
    && (forall w | w in s.stages :: s.stages[w].Waiting? <==> s.lock != Some(w))
    && (forall w | w in s.stages && s.stages[w].Merged? ::
          s.stages[w].doc == Merge(FileToJsonObj(s.file, s.stages[w].readable), s.stages[w].save))
    && (forall w | w in s.stages && s.stages[w].Written? ::
          s.tmp == Some(Merge(FileToJsonObj(s.file, s.stages[w].readable), s.stages[w].save)))
    && (s.lock.Some? ==> s.lock.value in s.stages)
  }

  lemma RenameKeepsInv(s: State, w: WriterId)
    requires Inv(s) && Enabled(s, Rename(w))
    ensures Inv(Next(s, Rename(w)))
  {
    var c := Completed(s.stages[w].save, s.stages[w].readable);
    assert (s.completed + [c])[..|s.completed|] == s.completed;
    assert s.lock == Some(w);
    assert forall v | v in s.stages && v != w :: s.stages[v].Waiting?;
  }

  lemma ServerListKeepsInv(s: State, nodes: map<string, string>)
    requires Inv(s) && Enabled(s, SaveServerList(nodes))
    ensures Inv(Next(s, SaveServerList(nodes)))
  {
    var c := Completed(StatusSave(nodes), false);
    assert (s.completed + [c])[..|s.completed|] == s.completed;
  }

  lemma StepKeepsInv(s: State, e: Event)
    requires Inv(s) && Enabled(s, e)
    ensures Inv(Next(s, e))
  {
    if e.Rename? { RenameKeepsInv(s, e.w); }
    if e.SaveServerList? { ServerListKeepsInv(s, e.nodes); }
  }

  /** Every interleaving of saves, failures and crashes leaves the file of some serial order
      of the completed ones, namely the order of their renames. */
  lemma {:induction false} SavesAreSerial(events: seq<Event>)
    requires Run(INITIAL, events).Some?
    ensures Inv(Run(INITIAL, events).value)
  {
    if events != [] {
      var n := |events| - 1;
      SavesAreSerial(events[..n]);
      StepKeepsInv(Run(INITIAL, events[..n]).value, events[n]);
    }
  }

  /** With a file that can be read, what is loaded at any point of any interleaving is the
      node section of the last completed status save and all ids of completed fault saves. */
  lemma LoadedIsSaved(events: seq<Event>)
    requires Run(INITIAL, events).Some?
    requires forall c | c in Run(INITIAL, events).value.completed :: c.readable
    ensures var s := Run(INITIAL, events).value;
            && LoadProcessFile(s.file) == LastStatus(s.completed)
            && LoadProcessedSwitchFaults(s.file) == AllIds(s.completed)
  {
    var s := Run(INITIAL, events).value;
    SavesAreSerial(events);
    AllReadable(s.completed);
    LoadedAfterSerial(s.completed);
  }

  /** The last node section is among the given saves. */
  predicate HasStatus(saves: seq<Completed>) {
    exists c | c in saves :: c.save.StatusSave?
  }

  /** All ids of a save are among the given saves. */
  predicate IsRepeated(saves: seq<Completed>, c: Completed) {
    c.save.FaultSave? ==> forall id | id in c.save.ids :: exists d | d in saves :: d.save.FaultSave? && id in d.save.ids
  }

  lemma {:induction false} LastStatusSince(saves: seq<Completed>)
    ensures LastStatus(SinceUnreadable(saves)) == if HasStatus(SinceUnreadable(saves)) then LastStatus(saves) else map[]
  {
    if saves != [] {
      var rest, last := saves[..|saves| - 1], saves[|saves| - 1];
      LastStatusSince(rest);
      var since := SinceUnreadable(saves);
      assert since[..|since| - 1] == if last.readable then SinceUnreadable(rest) else [];
      assert since == since[..|since| - 1] + [last];
    }
  }

  lemma {:induction false} AllIdsMembers(saves: seq<Completed>)
    ensures forall id :: id in AllIds(saves) <==> exists c | c in saves :: c.save.FaultSave? && id in c.save.ids
  {
    if saves != [] {
      assert saves == saves[..|saves| - 1] + [saves[|saves| - 1]];
      AllIdsMembers(saves[..|saves| - 1]);
    }
  }

  lemma {:induction false} SinceIsPart(saves: seq<Completed>)
    ensures forall c | c in SinceUnreadable(saves) :: c in saves
  {
    if saves != [] {
      assert saves == saves[..|saves| - 1] + [saves[|saves| - 1]];
      SinceIsPart(saves[..|saves| - 1]);
    }
  }

  /** In general, the node section is not lost if and only if a status was saved since the last
      save that could not read the file, or there was nothing to lose; and no id is lost if and
      only if every id ever saved was saved again since then. */
  lemma LoadedIsSavedIff(events: seq<Event>)
    requires Run(INITIAL, events).Some?
    ensures var s := Run(INITIAL, events).value; var since := SinceUnreadable(s.completed);
            && (LoadProcessFile(s.file) == LastStatus(s.completed) <==>
                HasStatus(since) || LastStatus(s.completed) == map[])
            && (LoadProcessedSwitchFaults(s.file) == AllIds(s.completed) <==>
                forall c | c in s.completed :: IsRepeated(since, c))
  {
    var saves := Run(INITIAL, events).value.completed;
    SavesAreSerial(events);
    LoadedAfterSerial(saves);
    LastStatusSince(saves);
    IdsRepeatedIff(saves);
  }

  lemma IdsRepeatedIff(saves: seq<Completed>)
    ensures AllIds(SinceUnreadable(saves)) == AllIds(saves) <==>
            forall c | c in saves :: IsRepeated(SinceUnreadable(saves), c)
  {
    var since := SinceUnreadable(saves);
    AllIdsMembers(saves);
    AllIdsMembers(since);
    SinceIsPart(saves);
    assert AllIds(since) <= AllIds(saves);
    if AllIds(since) == AllIds(saves) {
      forall c, id | c in saves && c.save.FaultSave? && id in c.save.ids
        ensures exists d | d in since :: d.save.FaultSave? && id in d.save.ids
      {
        assert id in AllIds(saves);
      }
    }
    if forall c | c in saves :: IsRepeated(since, c) {
      forall id | id in AllIds(saves) ensures id in AllIds(since) {
        var c :| c in saves && c.save.FaultSave? && id in c.save.ids;
        assert IsRepeated(since, c);
      }
    }
  }

  /** One status save whose read fails loses every fault id saved before it. */
  lemma UnreadableFileLosesIds(saves: seq<Completed>, nodes: map<string, string>)
    ensures LoadProcessedSwitchFaults(Serial(saves + [Completed(StatusSave(nodes), false)])) == {}
  {
    var all := saves + [Completed(StatusSave(nodes), false)];
    LoadedAfterSerial(all);
    assert SinceUnreadable(all) == [Completed(StatusSave(nodes), false)];
  }

  // ----- the saves as methods ----------------------------------------------------------------------------------------

  class ControllerFile {
    var file: Option<Doc>
    var tmp: Option<Doc>

    /** The body of a fault save under the lock; `written` and `renamed` are the outcomes of
        the two file operations. */
    method SaveFaultsWithLock(ids: seq<string>, readable: bool, written: bool, renamed: bool) returns (code: int)
      modifies this
      ensures code == 0 <==> written && renamed
      ensures code == 0 ==> file == Some(Merge(FileToJsonObj(old(file), readable), FaultSave(ids)))
      ensures code != 0 ==> file == old(file)
    {
      var existing := FileToJsonObj(file, readable);
      var faultArray := [];
      if existing.faults.Some? { faultArray := existing.faults.value; }
      for i := 0 to |ids|
        invariant faultArray == Ids(existing) + ids[..i] && file == old(file)
      {
        faultArray := faultArray + [ids[i]];
      }
      assert ids[..|ids|] == ids;
      if !written { return -1; }
      tmp := Some(existing.(faults := Some(faultArray)));
      if !renamed { return -1; }
      file, tmp := tmp, None;
      return 0;
    }

    method SaveStatusToFile(nodes: map<string, string>, readable: bool, written: bool, renamed: bool) returns (code: int)
      modifies this
      ensures code == 0 <==> written && renamed
      ensures code == 0 ==> file == Some(Merge(FileToJsonObj(old(file), readable), StatusSave(nodes)))
      ensures code != 0 ==> file == old(file)
    {
      var clusterInfo := Doc(nodes, None);
      var existing := FileToJsonObj(file, readable);
      if existing.faults.Some? { clusterInfo := clusterInfo.(faults := existing.faults); }
      if !written { return -1; }
      tmp := Some(clusterInfo);
      if !renamed { return -1; }
      file, tmp := tmp, None;
      return 0;
    }
  }
}
