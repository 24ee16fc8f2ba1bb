/** The application state controller of src/App.tsx: the authoritative list
    of activities, the flags around it, and the handlers that change them.

    The outside world comes in as parameters: the remote store's list and its
    accept/reject answers (`remote`, `storeOk`), the answer to the delete
    prompt (`confirmed`), the random id and the clock of a create (`freshId`,
    `now`), and the random pick of the insight selector (`pick`). The
    local-storage slot `chronicle_activities` is the field `backup`. */
module Controller {
  import opened Types
  import opened TimeOrder
  import opened Timeline
  import opened InsightSelector
  import opened Editor

  // ---------------------------------------------------------------------
  // Building the saved record

  /** `{ ...selectedActivity, ...data }`: the editor's three fields over the
      record being edited; its identity and creation instant survive. */
  function Merge(selected: Activity, data: Draft): (r: Activity)
    ensures r.id == selected.id && r.timestamp == selected.timestamp
    ensures r.name == data.name && r.time == data.time && r.description == Some(data.description)
  {
    selected.(name := data.name, time := data.time, description := Some(data.description))
  }

  /** A created record: the generated id and the current instant. */
  function Create(data: Draft, freshId: string, now: int): (r: Activity)
    ensures r.id == freshId && r.timestamp == now
    ensures r.name == data.name && r.time == data.time && r.description == Some(data.description)
  {
    Activity(freshId, data.name, data.time, Some(data.description), now)
  }

  /** The record a save sends to the store: an edit when a record is selected, a create otherwise. */
  function SavedRecord(selected: Option<Activity>, data: Draft, freshId: string, now: int): Activity
  {
    if selected.Some? then Merge(selected.value, data) else Create(data, freshId, now)
  }

  // ---------------------------------------------------------------------
  // The initial load

  /** The list after `loadData`: a non-empty remote result as it is, else a
      saved slot sorted by time, else the list it had. */
  function LoadedList(remote: seq<Activity>, saved: Option<seq<Activity>>, current: seq<Activity>): (r: seq<Activity>)
    ensures |remote| > 0 ==> r == remote
    ensures |remote| == 0 && saved.Some? ==> Sorted(r) && multiset(r) == multiset(saved.value)
    ensures |remote| == 0 && saved.None? ==> r == current
  {
    if |remote| > 0 then remote
    else if saved.Some? then
      SortByTimeSorted(saved.value);
      SortByTime(saved.value)
    else current
  }

  /** The list the journal opens with, when the slot is read before anything overwrites it. */
  function Mount(remote: seq<Activity>, slot: Option<seq<Activity>>): seq<Activity>
  {
    LoadedList(remote, slot, [])
  }

  /** The opening sequence as written, on values: the backup effect of the
      first render stores the initial empty list in the slot, and `loadData`
      reads the slot only after its fetch has been awaited, so it reads that
      empty list whatever `slot` held before. `OpenAsWritten` derives this
      from the class: the constructor's write, then `LoadData`. */
  function MountAsWritten(remote: seq<Activity>, slot: Option<seq<Activity>>): seq<Activity>
  {
    var slotAfterFirstRender := Some([]);
    LoadedList(remote, slotAfterFirstRender, [])
  }

  /** As written, the backup is never restored: the opening list is the remote one, whatever the slot held. */
  lemma MountAsWrittenIgnoresBackup(remote: seq<Activity>, slot: Option<seq<Activity>>)
    ensures MountAsWritten(remote, slot) == remote
  {
  }

  /** Reading the slot first restores it: on an empty remote result the
      journal opens with the saved records, sorted, and a sorted backup exactly as saved. */
  lemma MountRestoresBackup(saved: seq<Activity>)
    ensures Sorted(Mount([], Some(saved))) && multiset(Mount([], Some(saved))) == multiset(saved)
    ensures Sorted(saved) ==> Mount([], Some(saved)) == saved
  {
    if Sorted(saved) {
      SortByTimeOfSorted(saved);
    }
  }

  /** The opening scenario: empty remote store, one saved record. */
  lemma BackupLostExample()
    ensures var coffee := Activity("a1", "Coffee", "07:30", None, 1000);
      && MountAsWritten([], Some([coffee])) == []
      && Mount([], Some([coffee])) == [coffee]
  {
    var coffee := Activity("a1", "Coffee", "07:30", None, 1000);
    MountRestoresBackup([coffee]);
  }

  // ---------------------------------------------------------------------
  // The controller's state

  class Chronicle {
    var activities: seq<Activity>
    var isLoading: bool
    var isSyncing: bool
    var isModalOpen: bool
    var selectedActivity: Option<Activity>
    var insight: Option<Insight>
    var isAnalyzing: bool
    /** The local-storage slot holding the backup of the list. */
    var backup: Option<seq<Activity>>

    /** The backup holds exactly the current list. */
    ghost predicate Mirrored()
      reads this
    {
      backup == Some(activities)
    }

    /** The first render: the initial state, and the backup effect that
        stores it over whatever the slot held before. */
    constructor ()
      ensures activities == [] && isLoading && !isSyncing && !isModalOpen && !isAnalyzing
      ensures selectedActivity == None && insight == None
      ensures Mirrored()
    {
      activities := [];
      isLoading := true;
      isSyncing := false;
      isModalOpen := false;
      selectedActivity := None;
      insight := None;
      isAnalyzing := false;
      backup := Some([]);
    }

    /** `loadData` with the remote result `remote`, where reading the slot gives `saved`. */
    method LoadWith(remote: seq<Activity>, saved: Option<seq<Activity>>)
      modifies this`isLoading, this`activities, this`backup
      ensures Mirrored() && !isLoading
      ensures activities == LoadedList(remote, saved, old(activities))
    {
      isLoading := true;
      if |remote| > 0 {
        activities := remote;
      } else if saved.Some? {
        activities := SortByTime(saved.value);
      }
      backup := Some(activities);
      isLoading := false;
    }

    /** `loadData` as written: the slot is read after the fetch, so it holds
        whatever the backup effect last stored there. */
    method LoadData(remote: seq<Activity>)
      modifies this`isLoading, this`activities, this`backup
      ensures Mirrored() && !isLoading
      ensures activities == LoadedList(remote, old(backup), old(activities))
    {
      LoadWith(remote, backup);
    }

    method HandleAddClick()
      modifies this`selectedActivity, this`isModalOpen
      ensures selectedActivity == None && isModalOpen
    {
      selectedActivity := None;
      isModalOpen := true;
    }

    method HandleEditClick(activity: Activity)
      modifies this`selectedActivity, this`isModalOpen
      ensures selectedActivity == Some(activity) && isModalOpen
    {
      selectedActivity := Some(activity);
      isModalOpen := true;
    }

    /** The editor's `onClose`. */
    method CloseModal()
      modifies this`isModalOpen
      ensures !isModalOpen
    {
      isModalOpen := false;
    }

    /** `handleSaveActivity(data)`, where the store answers `storeOk`. */
    method HandleSave(data: Draft, storeOk: bool, freshId: string, now: int)
      requires Mirrored()
      modifies this`isSyncing, this`activities, this`backup
      ensures Mirrored() && !isSyncing
      ensures var saved := SavedRecord(selectedActivity, data, freshId, now);
        activities == if storeOk then Upsert(old(activities), saved) else old(activities)
    {
      isSyncing := true;
      var updated := SavedRecord(selectedActivity, data, freshId, now);
      if storeOk {
        activities := Upsert(activities, updated);
        backup := Some(activities);
      }
      isSyncing := false;
    }

    /** `handleDeleteActivity(id)`, where the prompt answers `confirmed` and the store `storeOk`. */
    method HandleDelete(id: string, confirmed: bool, storeOk: bool)
      requires Mirrored()
      modifies this`isSyncing, this`activities, this`backup
      ensures Mirrored()
      ensures isSyncing == if confirmed then false else old(isSyncing)
      ensures activities == if confirmed && storeOk then RemoveId(old(activities), id) else old(activities)
      ensures confirmed && storeOk ==> KeepId(activities, id) == []
    {
      if confirmed {
        isSyncing := true;
        if storeOk {
          activities := RemoveId(activities, id);
          RemoveIdLeavesNone(old(activities), id);
          backup := Some(activities);
        }
        isSyncing := false;
      }
    }

    /** `handleAnalyze`, where the selector's random pick is `pick`. */
    method HandleAnalyze(pick: nat)
      requires pick < 2
      modifies this`isAnalyzing, this`insight
      ensures !isAnalyzing && insight == AnalyzeActivities(activities, pick)
    {
      isAnalyzing := true;
      var result := AnalyzeActivities(activities, pick);
      insight := result;
      isAnalyzing := false;
    }

    /** The "Discard Synthesis" button. */
    method DismissInsight()
      modifies this`insight
      ensures insight == None
    {
      insight := None;
    }

    /** A submit of the open editor: `onSave` with the editor's fields, then
        `onClose`. The save is not awaited, so the editor closes whatever the
        store answers. */
    method SubmitEditor(editor: ActivityEditor, storeOk: bool, freshId: string, now: int)
      requires isModalOpen && Mirrored()
      modifies this`isSyncing, this`activities, this`backup, this`isModalOpen
      ensures Mirrored()
      ensures var valid := HasVisible(editor.name) && HasVisible(editor.time);
        var saved := SavedRecord(selectedActivity, Draft(editor.name, editor.time, editor.description), freshId, now);
        && isModalOpen == !valid
        && isSyncing == (if valid then false else old(isSyncing))
        && activities == if valid && storeOk then Upsert(old(activities), saved) else old(activities)
    {
      var draft := editor.Submit();
      if draft.Some? {
        HandleSave(draft.value, storeOk, freshId, now);
        CloseModal();
      }
    }
  }

  // ---------------------------------------------------------------------
  // Opening the journal

  /** The mount as written: the first render and its backup write, then
      `loadData`. `slot` is what the previous session left in the slot. */
  method OpenAsWritten(slot: Option<seq<Activity>>, remote: seq<Activity>) returns (c: Chronicle)
    ensures fresh(c)
    ensures c.activities == MountAsWritten(remote, slot) && c.activities == remote
    ensures c.Mirrored() && !c.isLoading && !c.isSyncing && !c.isModalOpen
  {
    c := new Chronicle();
    c.LoadData(remote);
    MountAsWrittenIgnoresBackup(remote, slot);
  }

  /** The corrected mount: the slot is read before the first render writes to it. */
  method OpenRestoring(slot: Option<seq<Activity>>, remote: seq<Activity>) returns (c: Chronicle)
    ensures fresh(c)
    ensures c.activities == Mount(remote, slot)
    ensures |remote| == 0 && slot.Some? ==>
      Sorted(c.activities) && multiset(c.activities) == multiset(slot.value)
    ensures c.Mirrored() && !c.isLoading && !c.isSyncing && !c.isModalOpen
  {
    var saved := slot;
    c := new Chronicle();
    c.LoadWith(remote, saved);
    if |remote| == 0 && slot.Some? {
      MountRestoresBackup(slot.value);
    }
  }

  // ---------------------------------------------------------------------
  // Properties of the handlers' list updates

  /** A delete the store accepts: no record with the id is left, every other
      record stays as often as before, a delete of an absent id changes
      nothing, and deleting twice is deleting once. */
  lemma DeleteUpdatesList(prev: seq<Activity>, id: string)
    ensures var r := RemoveId(prev, id);
      && KeepId(r, id) == []
      && (forall y: Activity :: y.id != id ==> multiset(r)[y] == multiset(prev)[y])
      && (Sorted(prev) ==> Sorted(r))
      && (UniqueIds(prev) ==> UniqueIds(r))
      && (KeepId(prev, id) == [] ==> r == prev)
      && RemoveId(r, id) == r
  {
    RemoveIdLeavesNone(prev, id);
    RemoveIdCount(prev, id);
    if Sorted(prev) {
      RemoveIdSorted(prev, id);
    }
    if UniqueIds(prev) {
      RemoveIdUnique(prev, id);
    }
    if KeepId(prev, id) == [] {
      RemoveIdAbsent(prev, id);
    }
    RemoveIdIdempotent(prev, id);
  }

  /** Editing a record keeps its identity: the list still holds one record
      with that id, now carrying the editor's fields and the old timestamp. */
  lemma EditKeepsIdentity(prev: seq<Activity>, selected: Activity, data: Draft)
    requires KeepId(prev, selected.id) == [selected]
    ensures var r := Upsert(prev, Merge(selected, data));
      && |r| == |prev|
      && KeepId(r, selected.id) == [Activity(selected.id, data.name, data.time, Some(data.description), selected.timestamp)]
  {
    UpsertSpec(prev, Merge(selected, data));
  }
}
