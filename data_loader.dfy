/** The data loader hook: fetches the CDs, delivery points and CD connections, reconciles
    the first two with the copies saved in local storage, saves edited positions, and
    reloads on a timer while no local edit has been made.

    The hook's state and the two local-storage keys are the fields of class `Loader`; its
    three operations are the methods `Load`, `UpdatePositions` and `Tick`. Each method is
    proved against a function on `LoaderState` values (`Loaded`, `PositionsUpdated`,
    `Ticked`), and the lemmas below state what those functions promise, alone and in
    sequence. */
module DataLoader {
  import opened Wrappers
  import opened Entities

  /** What one local-storage key holds, as far as the loader can tell. */
  datatype Slot<T> =
    | Absent             // getItem gave null (never saved) or the empty string
    | Unparseable        // JSON.parse throws on the stored text
    | NotArray           // valid JSON that is not an array: null, an object, a number, ...
    | Arr(items: seq<T>) // a JSON array; stringify followed by parse gives the same sequence back

  /** What loadSavedPositions returns for one key. */
  datatype Parsed<T> = Null | NotAnArray | AnArray(items: seq<T>)

  datatype SavedPositions = SavedPositions(cds: Parsed<CD>, deliveryPoints: Parsed<DeliveryPoint>)

  /** The outcome of the two rounds of Promise.all in loadData. */
  datatype Fetch =
    | Fetched(cds: seq<CD>, deliveryPoints: seq<DeliveryPoint>, connections: seq<Connection>)
      // some response had ok == false
    | NotOk
      // a fetch or a response.json() rejected; Some(m) when the reason is an Error with message m
    | Rejected(reason: Option<string>)

  /** The message thrown when a response is not ok. */
  const NotOkMessage := "Erro ao carregar dados dos arquivos JSON"
  /** The message recorded when the rejection reason is not an Error. */
  const UnknownErrorMessage := "Erro desconhecido"

  /** Everything the hook keeps: its React state plus the two local-storage keys
      'route-atlas-cds' (cdSlot) and 'route-atlas-delivery-points' (dpSlot). */
  datatype LoaderState = LoaderState(
    cds: seq<CD>,
    deliveryPoints: seq<DeliveryPoint>,
    cdConnections: seq<Connection>,
    isLoading: bool,
    error: Option<string>,
    hasLocalChanges: bool,
    cdSlot: Slot<CD>,
    dpSlot: Slot<DeliveryPoint>)

  function ParseSlot<T>(slot: Slot<T>): (p: Parsed<T>)
    requires !slot.Unparseable?
  {
    match slot
    case Absent => Null
    case NotArray => NotAnArray
    case Arr(items) => AnArray(items)
  }

  /** loadSavedPositions: both keys are parsed inside one try block, so a parse error in
      either key makes both read as null. */
  function LoadSavedPositions(cdSlot: Slot<CD>, dpSlot: Slot<DeliveryPoint>): (saved: SavedPositions)
    ensures cdSlot.Unparseable? || dpSlot.Unparseable? ==> saved == SavedPositions(Null, Null)
    ensures saved.cds.AnArray? <==> cdSlot.Arr? && !dpSlot.Unparseable?
    ensures saved.cds.AnArray? ==> saved.cds.items == cdSlot.items
    ensures saved.deliveryPoints.AnArray? <==> dpSlot.Arr? && !cdSlot.Unparseable?
    ensures saved.deliveryPoints.AnArray? ==> saved.deliveryPoints.items == dpSlot.items
  {
    if cdSlot.Unparseable? || dpSlot.Unparseable? then
      SavedPositions(Null, Null)
    else
      SavedPositions(ParseSlot(cdSlot), ParseSlot(dpSlot))
  }

  /** The test at lines 108 and 114: a saved value is used only if it is truthy, is an
      array and has as many elements as the fetched one (an empty array is truthy). */
  function Usable<T>(saved: Parsed<T>, original: seq<T>): (usable: bool)
    ensures saved.Null? || saved.NotAnArray? ==> !usable
    ensures saved.AnArray? ==> (usable <==> |saved.items| == |original|)
  {
    saved.AnArray? && |saved.items| == |original|
  }

  /** The collection installed for one kind. */
  function Effective<T>(saved: Parsed<T>, original: seq<T>): (r: seq<T>)
    ensures |r| == |original|
    ensures r == original || (saved.AnArray? && r == saved.items)
  {
    if Usable(saved, original) then saved.items else original
  }

  /** shouldUpdateStorage at line 120: at least one kind fell back to the fetched copy.
      In terms of what storage holds: unless both keys hold arrays of the fetched
      lengths. */
  function ShouldUpdateStorage(s: LoaderState, fetch: Fetch): (write: bool)
    requires fetch.Fetched?
    ensures !write <==>
      && s.cdSlot.Arr? && |s.cdSlot.items| == |fetch.cds|
      && s.dpSlot.Arr? && |s.dpSlot.items| == |fetch.deliveryPoints|
  {
    var saved := LoadSavedPositions(s.cdSlot, s.dpSlot);
    !Usable(saved.cds, fetch.cds) || !Usable(saved.deliveryPoints, fetch.deliveryPoints)
  }

  function FailureMessage(fetch: Fetch): (m: string)
    requires !fetch.Fetched?
    ensures fetch.NotOk? ==> m == NotOkMessage
    ensures fetch.Rejected? && fetch.reason.Some? ==> m == fetch.reason.value
    ensures fetch.Rejected? && fetch.reason.None? ==> m == UnknownErrorMessage
  {
    match fetch
    case NotOk => NotOkMessage
    case Rejected(reason) => if reason.Some? then reason.value else UnknownErrorMessage
  }

  /** The state after loadData has run to completion with the given fetch outcome. */
  function Loaded(s: LoaderState, fetch: Fetch): (r: LoaderState)
    ensures !r.isLoading
    ensures r.hasLocalChanges == s.hasLocalChanges
    ensures fetch.Fetched? ==>
      && r.error == None
      && r.cdConnections == fetch.connections
      && |r.cds| == |fetch.cds|
      && |r.deliveryPoints| == |fetch.deliveryPoints|
      && r.cdSlot.Arr? && r.dpSlot.Arr?
    ensures !fetch.Fetched? ==>
      && r.error.Some?
      && r.cds == s.cds
      && r.deliveryPoints == s.deliveryPoints
      && r.cdConnections == s.cdConnections
      && r.cdSlot == s.cdSlot
      && r.dpSlot == s.dpSlot
  {
    match fetch
    case Fetched(originalCds, originalPoints, connections) =>
      var saved := LoadSavedPositions(s.cdSlot, s.dpSlot);
      var write := ShouldUpdateStorage(s, fetch);
      LoaderState(
        Effective(saved.cds, originalCds),
        Effective(saved.deliveryPoints, originalPoints),
        connections,
        false,
        None,
        s.hasLocalChanges,
        if write then Arr(originalCds) else s.cdSlot,
        if write then Arr(originalPoints) else s.dpSlot)
    case _ =>
      s.(isLoading := false, error := Some(FailureMessage(fetch)))
  }

  /** The state after updatePositions(newCds, newPoints). */
  function PositionsUpdated(s: LoaderState, newCds: seq<CD>, newPoints: seq<DeliveryPoint>): LoaderState {
    s.(cdSlot := Arr(newCds), dpSlot := Arr(newPoints),
       cds := newCds, deliveryPoints := newPoints,
       hasLocalChanges := true)
  }

  /** The state after one firing of the refresh interval. */
  function Ticked(s: LoaderState, fetch: Fetch): LoaderState {
    if s.hasLocalChanges then s else Loaded(s, fetch)
  }

  /** The state the hook starts in; local storage keeps whatever an earlier session left. */
  function Initial(cdSlot: Slot<CD>, dpSlot: Slot<DeliveryPoint>): LoaderState {
    LoaderState([], [], [], true, None, false, cdSlot, dpSlot)
  }

  class Loader {
    var cds: seq<CD>
    var deliveryPoints: seq<DeliveryPoint>
    var cdConnections: seq<Connection>
    var isLoading: bool
    var error: Option<string>
    var hasLocalChanges: bool
    /** local storage 'route-atlas-cds' */
    var cdSlot: Slot<CD>
    /** local storage 'route-atlas-delivery-points' */
    var dpSlot: Slot<DeliveryPoint>

    function State(): LoaderState
      reads this
    {
      LoaderState(cds, deliveryPoints, cdConnections, isLoading, error, hasLocalChanges, cdSlot, dpSlot)
    }

    constructor (savedCds: Slot<CD>, savedPoints: Slot<DeliveryPoint>)
      ensures cds == [] && deliveryPoints == [] && cdConnections == []
      ensures isLoading && error == None && !hasLocalChanges
      ensures cdSlot == savedCds && dpSlot == savedPoints
      ensures State() == Initial(savedCds, savedPoints)
    {
      cds, deliveryPoints, cdConnections := [], [], [];
      isLoading, error, hasLocalChanges := true, None, false;
      cdSlot, dpSlot := savedCds, savedPoints;
    }

    /** loadData, run to completion. */
    method Load(fetch: Fetch)
      modifies this
      ensures State() == Loaded(old(State()), fetch)
    {
      isLoading, error := true, None;
      match fetch {
        case Fetched(originalCds, originalPoints, connections) =>
          var saved := LoadSavedPositions(cdSlot, dpSlot);
          var newCds := originalCds;
          var newPoints := originalPoints;
          var shouldUpdateStorage := false;
          if saved.cds.AnArray? && |saved.cds.items| == |originalCds| {
            newCds := saved.cds.items;
          } else {
            shouldUpdateStorage := true;
          }
          if saved.deliveryPoints.AnArray? && |saved.deliveryPoints.items| == |originalPoints| {
            newPoints := saved.deliveryPoints.items;
          } else {
            shouldUpdateStorage := true;
          }
          if shouldUpdateStorage {
            cdSlot := Arr(originalCds);
            dpSlot := Arr(originalPoints);
          }
          cds, deliveryPoints, cdConnections := newCds, newPoints, connections;
          isLoading, error := false, None;
        case NotOk =>
          isLoading, error := false, Some(NotOkMessage);
        case Rejected(reason) =>
          isLoading := false;
          error := if reason.Some? then Some(reason.value) else Some(UnknownErrorMessage);
      }
    }

    /** updatePositions: saves both collections, installs them and raises the flag. */
    method UpdatePositions(newCds: seq<CD>, newPoints: seq<DeliveryPoint>)
      modifies this
      ensures cdSlot == Arr(newCds) && dpSlot == Arr(newPoints)
      ensures cds == newCds && deliveryPoints == newPoints
      ensures cdConnections == old(cdConnections) && isLoading == old(isLoading) && error == old(error)
      ensures hasLocalChanges
      ensures State() == PositionsUpdated(old(State()), newCds, newPoints)
    {
      cdSlot := Arr(newCds);
      dpSlot := Arr(newPoints);
      cds, deliveryPoints := newCds, newPoints;
      hasLocalChanges := true;
    }

    /** The interval callback: reloads only while no local edit has been made. */
    method Tick(fetch: Fetch) returns (reloaded: bool)
      modifies this
      ensures reloaded <==> !old(hasLocalChanges)
      ensures !reloaded ==> State() == old(State())
      ensures State() == Ticked(old(State()), fetch)
    {
      reloaded := !hasLocalChanges;
      if reloaded {
        Load(fetch);
      }
    }
  }

  // ---------------------------------------------------------------------------
  // One load

  /** Lines 104-118: each kind's saved copy is installed exactly when its key holds an
      array of the fetched length and neither key fails to parse; otherwise the fetched
      copy is installed. The two kinds are decided independently. */
  lemma SavedCopyWinsExactly(s: LoaderState, fetch: Fetch)
    requires fetch.Fetched?
    ensures Loaded(s, fetch).cds ==
      if s.cdSlot.Arr? && !s.dpSlot.Unparseable? && |s.cdSlot.items| == |fetch.cds|
      then s.cdSlot.items else fetch.cds
    ensures Loaded(s, fetch).deliveryPoints ==
      if s.dpSlot.Arr? && !s.cdSlot.Unparseable? && |s.dpSlot.items| == |fetch.deliveryPoints|
      then s.dpSlot.items else fetch.deliveryPoints
  {
  }

  /** Lines 106-123: if either kind falls back, both keys are overwritten with the fetched
      originals, the key whose saved copy was just installed included; if both kinds keep
      their saved copies, storage is left alone. */
  lemma WriteBackCoversBothSlots(s: LoaderState, fetch: Fetch)
    requires fetch.Fetched?
    ensures var r := Loaded(s, fetch);
      if s.cdSlot.Arr? && s.dpSlot.Arr?
         && |s.cdSlot.items| == |fetch.cds| && |s.dpSlot.items| == |fetch.deliveryPoints|
      then r.cdSlot == s.cdSlot && r.dpSlot == s.dpSlot
      else r.cdSlot == Arr(fetch.cds) && r.dpSlot == Arr(fetch.deliveryPoints)
  {
  }

  /** Lines 47-59 with 108-123: one unparseable key discards both saved copies, so the
      fetched data is installed and written to both keys. */
  lemma UnparseableSlotDiscardsBoth(s: LoaderState, fetch: Fetch)
    requires fetch.Fetched?
    requires s.cdSlot.Unparseable? || s.dpSlot.Unparseable?
    ensures Loaded(s, fetch).cds == fetch.cds
    ensures Loaded(s, fetch).deliveryPoints == fetch.deliveryPoints
    ensures Loaded(s, fetch).cdSlot == Arr(fetch.cds)
    ensures Loaded(s, fetch).dpSlot == Arr(fetch.deliveryPoints)
  {
  }

  /** Lines 89-90 and 133-139: a failed load records an error and keeps the previous
      collections and both keys. */
  lemma FailedLoadKeepsData(s: LoaderState, fetch: Fetch)
    requires !fetch.Fetched?
    ensures Loaded(s, fetch) == s.(isLoading := false, error := Some(FailureMessage(fetch)))
    ensures Loaded(s, fetch).error != None
  {
  }

  // ---------------------------------------------------------------------------
  // Loads in sequence

  /** A load right after a load with the same data never writes storage. */
  lemma {:induction false} SecondLoadWritesNothing(s: LoaderState, fetch: Fetch)
    ensures Loaded(Loaded(s, fetch), fetch).cdSlot == Loaded(s, fetch).cdSlot
    ensures Loaded(Loaded(s, fetch), fetch).dpSlot == Loaded(s, fetch).dpSlot
  {
    if fetch.Fetched? {
      var r := Loaded(s, fetch);
      assert r.cdSlot.Arr? && r.dpSlot.Arr?;
      if ShouldUpdateStorage(s, fetch) {
        assert r.cdSlot == Arr(fetch.cds) && r.dpSlot == Arr(fetch.deliveryPoints);
      } else {
        assert r.cdSlot == s.cdSlot && r.dpSlot == s.dpSlot;
      }
      assert !ShouldUpdateStorage(r, fetch);
    }
  }

  /** A load repeated with the same data and no edit in between installs the same
      collections, except when exactly one kind kept its saved copy the first time
      (see FirstLoadShowsSavedLayoutOnce). */
  lemma {:induction false} RepeatedLoadIsIdempotent(s: LoaderState, fetch: Fetch)
    requires fetch.Fetched? ==>
      var saved := LoadSavedPositions(s.cdSlot, s.dpSlot);
      Usable(saved.cds, fetch.cds) == Usable(saved.deliveryPoints, fetch.deliveryPoints)
    ensures Loaded(Loaded(s, fetch), fetch) == Loaded(s, fetch)
  {
    SecondLoadWritesNothing(s, fetch);
  }

  /** Whatever the starting storage, the second load is a fixed point: every later load
      with the same data changes nothing. */
  lemma {:induction false} SecondLoadIsFixedPoint(s: LoaderState, fetch: Fetch)
    ensures var r := Loaded(Loaded(s, fetch), fetch); Loaded(r, fetch) == r
  {
    var r1 := Loaded(s, fetch);
    SecondLoadWritesNothing(s, fetch);
    if fetch.Fetched? {
      var r2 := Loaded(r1, fetch);
      assert !ShouldUpdateStorage(r1, fetch);
      assert r2.cdSlot == r1.cdSlot && r2.dpSlot == r1.dpSlot;
      assert !ShouldUpdateStorage(r2, fetch);
      RepeatedLoadIsIdempotent(r1, fetch);
    }
  }

  // ---------------------------------------------------------------------------
  // Edits

  /** Lines 62-76: after updatePositions the keys and the state hold the edited
      collections, the rest of the state is unchanged and the flag is raised. */
  lemma UpdateSavesAndInstalls(s: LoaderState, newCds: seq<CD>, newPoints: seq<DeliveryPoint>)
    ensures var r := PositionsUpdated(s, newCds, newPoints);
      && r.cdSlot == Arr(newCds) && r.dpSlot == Arr(newPoints)
      && r.cds == newCds && r.deliveryPoints == newPoints
      && r.cdConnections == s.cdConnections && r.isLoading == s.isLoading && r.error == s.error
      && r.hasLocalChanges
  {
  }

  /** An edit whose collections have the fetched lengths survives a reload: the saved
      copies win and storage is not rewritten. */
  lemma EditSurvivesReload(s: LoaderState, newCds: seq<CD>, newPoints: seq<DeliveryPoint>, fetch: Fetch)
    requires fetch.Fetched?
    requires |newCds| == |fetch.cds| && |newPoints| == |fetch.deliveryPoints|
    ensures var e := PositionsUpdated(s, newCds, newPoints);
      Loaded(e, fetch) == e.(cdConnections := fetch.connections, isLoading := false, error := None)
  {
  }

  /** An edit of the wrong length is discarded by the next load: both keys get the
      fetched originals and the mismatching kind is replaced in memory. */
  lemma EditOfOtherShapeIsOverwritten(s: LoaderState, newCds: seq<CD>, newPoints: seq<DeliveryPoint>, fetch: Fetch)
    requires fetch.Fetched?
    requires |newCds| != |fetch.cds|
    ensures var r := Loaded(PositionsUpdated(s, newCds, newPoints), fetch);
      && r.cds == fetch.cds
      && r.cdSlot == Arr(fetch.cds) && r.dpSlot == Arr(fetch.deliveryPoints)
  {
  }

  // ---------------------------------------------------------------------------
  // The refresh timer and the sticky flag

  /** The events that change the loader: the effect body (an unconditional load, run on
      mount and whenever hasLocalChanges changes), a firing of the interval, and a call of
      updatePositions. */
  datatype Event =
    | EffectRun(fetch: Fetch)
    | TimerTick(fetch: Fetch)
    | Edit(cds: seq<CD>, deliveryPoints: seq<DeliveryPoint>)

  function Step(s: LoaderState, e: Event): LoaderState {
    match e
    case EffectRun(fetch) => Loaded(s, fetch)
    case TimerTick(fetch) => Ticked(s, fetch)
    case Edit(newCds, newPoints) => PositionsUpdated(s, newCds, newPoints)
  }

  function Run(s: LoaderState, events: seq<Event>): LoaderState
    decreases |events|
  {
    if events == [] then s else Run(Step(s, events[0]), events[1..])
  }

  /** Lines 148-152: a tick loads exactly when no local edit has been made, and is a
      no-op otherwise. */
  lemma TickLoadsOnlyWithoutEdits(s: LoaderState, fetch: Fetch)
    ensures s.hasLocalChanges ==> Ticked(s, fetch) == s
    ensures !s.hasLocalChanges ==> Ticked(s, fetch) == Loaded(s, fetch)
  {
  }

  /** Lines 45 and 74: nothing sets hasLocalChanges back to false. */
  lemma {:induction false} FlagNeverCleared(s: LoaderState, events: seq<Event>)
    requires s.hasLocalChanges
    ensures Run(s, events).hasLocalChanges
    decreases |events|
  {
    if events != [] {
      FlagNeverCleared(Step(s, events[0]), events[1..]);
    }
  }

  /** The flag is up after a run exactly when it was up before or the run holds an edit. */
  lemma {:induction false} FlagRaisedExactlyByEdits(s: LoaderState, events: seq<Event>)
    ensures Run(s, events).hasLocalChanges <==>
      s.hasLocalChanges || exists i :: 0 <= i < |events| && events[i].Edit?
    decreases |events|
  {
    if events != [] {
      var t := Step(s, events[0]);
      FlagRaisedExactlyByEdits(t, events[1..]);
      if exists i :: 0 <= i < |events[1..]| && events[1..][i].Edit? {
        var i :| 0 <= i < |events[1..]| && events[1..][i].Edit?;
        assert events[i + 1].Edit?;
      }
      if exists i :: 0 <= i < |events| && events[i].Edit? {
        var i :| 0 <= i < |events| && events[i].Edit?;
        if i > 0 {
          assert events[1..][i - 1].Edit?;
        }
      }
    }
  }

  /** Once an edit has been made, any number of timer ticks leaves the state as it is. */
  lemma {:induction false} TicksIdleAfterEdit(s: LoaderState, events: seq<Event>)
    requires s.hasLocalChanges
    requires forall i :: 0 <= i < |events| ==> events[i].TimerTick?
    ensures Run(s, events) == s
    decreases |events|
  {
    if events != [] {
      assert Step(s, events[0]) == s;
      TicksIdleAfterEdit(s, events[1..]);
    }
  }

  // ---------------------------------------------------------------------------
  // Finding: the write-back at lines 120-123 covers both keys

  /** Loading with a saved CD layout and an empty delivery-point key shows the saved CD
      layout once, but storage then holds the fetched CDs, so the next load with the same
      data shows the fetched CDs: the user's layout disappears without any edit. */
  lemma FirstLoadShowsSavedLayoutOnce()
    ensures
      var original := CD("cd1", "CD", Point(200.0, 150.0), Active, 1000, 850);
      var moved := original.(location := Point(300.0, 150.0));
      var point := DeliveryPoint("dp1", "DP", Point(120.0, 120.0), Delivered, "cd1", High);
      var s := Initial(Arr([moved]), Absent);
      var fetch := Fetched([original], [point], []);
      && Loaded(s, fetch).cds == [moved]
      && Loaded(s, fetch).cdSlot == Arr([original])
      && Loaded(Loaded(s, fetch), fetch).cds == [original]
      && Loaded(Loaded(s, fetch), fetch) != Loaded(s, fetch)
  {
    var original := CD("cd1", "CD", Point(200.0, 150.0), Active, 1000, 850);
    var moved := original.(location := Point(300.0, 150.0));
    assert moved != original by {
      assert moved.location.x != original.location.x;
    }
  }

  /** The load with the write-back done per kind: a key is overwritten only when its own
      kind falls back to the fetched copy, so each key ends up holding what is on screen. */
  function LoadedPerKind(s: LoaderState, fetch: Fetch): (r: LoaderState)
    ensures fetch.Fetched? ==> r.cdSlot == Arr(r.cds) && r.dpSlot == Arr(r.deliveryPoints)
    ensures fetch.Fetched? ==> r.cds == Loaded(s, fetch).cds && r.deliveryPoints == Loaded(s, fetch).deliveryPoints
    ensures !fetch.Fetched? ==> r == Loaded(s, fetch)
  {
    match fetch
    case Fetched(originalCds, originalPoints, connections) =>
      var saved := LoadSavedPositions(s.cdSlot, s.dpSlot);
      var newCds := Effective(saved.cds, originalCds);
      var newPoints := Effective(saved.deliveryPoints, originalPoints);
      LoaderState(newCds, newPoints, connections, false, None, s.hasLocalChanges, Arr(newCds), Arr(newPoints))
    case _ =>
      Loaded(s, fetch)
  }

  /** With the per-kind write-back, memory and storage agree after every load, so a
      repeated load with the same data changes nothing, whatever storage held before. */
  lemma {:induction false} LoadedPerKindIsIdempotent(s: LoaderState, fetch: Fetch)
    ensures LoadedPerKind(LoadedPerKind(s, fetch), fetch) == LoadedPerKind(s, fetch)
  {
    if fetch.Fetched? {
      var r := LoadedPerKind(s, fetch);
      var saved := LoadSavedPositions(r.cdSlot, r.dpSlot);
      assert saved == SavedPositions(AnArray(r.cds), AnArray(r.deliveryPoints));
      assert Usable(saved.cds, fetch.cds) && Usable(saved.deliveryPoints, fetch.deliveryPoints);
    }
  }
}
