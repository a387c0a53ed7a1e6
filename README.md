# Route Atlas dashboard: data reconciliation, route selection and delivery counters

This project models the logic of a logistics dashboard that shows distribution centres
(CDs), the delivery points assigned to them and the connections between CDs.

- **Data loader** (`data_loader.dfy`, module `DataLoader`). This is the hook that
  fetches the three collections and reconciles CDs and delivery points with the copies
  saved under the local-storage keys `route-atlas-cds` and
  `route-atlas-delivery-points`. It saves edited positions and reloads on a timer while
  no local edit has been made. The hook's state and the two keys are the fields of class
  `Loader`. Its methods `Load`, `UpdatePositions` and `Tick` are each proved equal to a
  function on `LoaderState` values (`Loaded`, `PositionsUpdated`, `Ticked`). The lemmas
  state what those functions guarantee after one call and over sequences of events
  (`Run`).
- **Route diagram** (`route_visualization.dfy`, module `RouteVisualization`). It covers:
  - the id joins (`FindCd` is `cds.find`) that decide which inter-CD and delivery routes
    are drawn;
  - one marker per CD and one per delivery point;
  - the highlight conditions and the status and priority colours;
  - the dash-animation counter, the hover state (class `RouteView`) and the CD click
    toggle.

  The inter-CD routes come from the component's own fixed table `FixedConnections`
  (cd1–cd2 active, cd1–cd3 active, cd2–cd3 inactive), not from the connections the loader
  fetches.
- **Dashboard page** (`dashboard.dfy`, module `Dashboard`). It covers the built-in sample
  data, the four counters of the metric cards and the selected-CD state (class
  `DashboardView`). The page shows its own sample data and does not use the data loader.
- Shared records are in `entities.dfy` (`Entities`), and `Option` (for `T | null`) is in
  `wrappers.dfy`.

Storage keys are abstract values: `Absent`, `Unparseable`, `NotArray` or `Arr(items)`.
Serialising a collection and parsing it back gives the same sequence. A fetch is
`Fetched(cds, points, connections)`, or `NotOk` (some response was not ok), or
`Rejected(reason)` (a fetch or JSON decoding threw).

Three facts about the code shape the model:
- `hasLocalChanges` is never reset. Once an edit has been saved, the refresh timer
  skips every later tick (see `FlagNeverCleared` and `TicksIdleAfterEdit`).
- A fallback in either kind rewrites both keys with the fetched originals
  (`WriteBackCoversBothSlots`; see Findings).
- The code has no drag handling. `updatePositions` receives the new positions from
  its caller and stores them as given.

## Model

| member | source | states |
|---|---|---|
| Entities.StatusName | src/hooks/useDataLoader.ts:16 | each delivery status has its own string: 'pending' exactly for pending, 'in_transit' exactly for in transit, 'delivered' exactly for delivered |
| Entities.PriorityName | src/hooks/useDataLoader.ts:18 | each priority has its own string: 'low', 'medium' and 'high', each exactly for its value |
| DataLoader.LoadSavedPositions | src/hooks/useDataLoader.ts:47-59 | a parse error in either key makes both saved values null; otherwise each key's saved value is an array exactly when the key holds one, with the same items |
| DataLoader.Usable | src/hooks/useDataLoader.ts:108-114 | a saved value that is null or not an array is never used; a saved array is used exactly when it has as many elements as the fetched one |
| DataLoader.ShouldUpdateStorage | src/hooks/useDataLoader.ts:106-120 | storage is rewritten unless both keys hold arrays of the fetched lengths |
| DataLoader.Effective | src/hooks/useDataLoader.ts:104-118 | the installed collection always has the fetched length and is either the fetched copy or the saved array |
| DataLoader.FailureMessage | src/hooks/useDataLoader.ts:133-139 | the error is the fixed not-ok message, the thrown Error's message, or 'Erro desconhecido' for a non-Error reason |
| DataLoader.Loaded | src/hooks/useDataLoader.ts:78-141 | after a load, isLoading is false and the flag is unchanged. Success clears the error, installs the fetched connections, gives collections of the fetched lengths and leaves arrays in both keys. Failure sets an error and keeps collections, connections and keys |
| DataLoader.Loader.constructor | src/hooks/useDataLoader.ts:37-45 | empty collections, isLoading true, no error, flag down; storage keeps what an earlier session left |
| DataLoader.Loader.Load | src/hooks/useDataLoader.ts:78-141 | the step-by-step reconciliation (locals cds, deliveryPoints, shouldUpdateStorage) ends in exactly the state `Loaded` describes |
| DataLoader.Loader.UpdatePositions | src/hooks/useDataLoader.ts:62-76 | both keys and both collections hold the new values; connections, isLoading and error are unchanged; the flag is raised |
| DataLoader.Loader.Tick | src/hooks/useDataLoader.ts:148-152 | reloads exactly when the flag was down; otherwise nothing changes |
| DataLoader.SavedCopyWinsExactly | src/hooks/useDataLoader.ts:104-118 | each kind installs its saved copy exactly when its key holds an array of the fetched length and neither key fails to parse; otherwise it installs the fetched copy, independently per kind |
| DataLoader.WriteBackCoversBothSlots | src/hooks/useDataLoader.ts:106-123 | if either kind falls back, both keys get the fetched originals, including the key whose saved copy was just installed; if both keep their saved copies, storage is not written |
| DataLoader.UnparseableSlotDiscardsBoth | src/hooks/useDataLoader.ts:47-59 | one unparseable key makes the fetched data win for both kinds and rewrites both keys |
| DataLoader.FailedLoadKeepsData | src/hooks/useDataLoader.ts:133-139 | a failed load only ends loading and records a non-null error; collections, connections and keys are unchanged |
| DataLoader.SecondLoadWritesNothing | src/hooks/useDataLoader.ts:120-123 | a load right after a load with the same data never writes storage |
| DataLoader.RepeatedLoadIsIdempotent | src/hooks/useDataLoader.ts:104-123 | when both kinds kept their saved copies, or both fell back, a repeated load with the same data changes nothing |
| DataLoader.SecondLoadIsFixedPoint | src/hooks/useDataLoader.ts:104-123 | from any storage content, the state after two loads with the same data is unchanged by further loads |
| DataLoader.UpdateSavesAndInstalls | src/hooks/useDataLoader.ts:62-76 | updatePositions saves and installs both collections, keeps connections, isLoading and error, and raises the flag |
| DataLoader.EditSurvivesReload | src/hooks/useDataLoader.ts:108-118 | an edit with the fetched lengths survives a reload: saved copies win and storage is not rewritten |
| DataLoader.EditOfOtherShapeIsOverwritten | src/hooks/useDataLoader.ts:103-123 | an edited CD list of another length is replaced by the fetched one in memory, and both keys are overwritten |
| DataLoader.TickLoadsOnlyWithoutEdits | src/hooks/useDataLoader.ts:148-152 | a tick is a no-op while the flag is up and a full load while it is down |
| DataLoader.FlagNeverCleared | src/hooks/useDataLoader.ts:74 | once raised, hasLocalChanges stays raised through any sequence of loads, ticks and edits |
| DataLoader.FlagRaisedExactlyByEdits | src/hooks/useDataLoader.ts:45 | after a run, the flag is up exactly when it was up before or the run contains an updatePositions call |
| DataLoader.TicksIdleAfterEdit | src/hooks/useDataLoader.ts:148-152 | once the flag is up, any number of ticks leaves the whole state, storage included, unchanged |
| DataLoader.FirstLoadShowsSavedLayoutOnce | src/hooks/useDataLoader.ts:120-123 | concrete input on which the first load shows a saved CD layout while storage gets the fetched CDs, and the second load shows the fetched CDs |
| DataLoader.LoadedPerKind | src/hooks/useDataLoader.ts:120-123 | corrected load: installs the same collections as the code, and after a successful load each key holds exactly what is installed |
| DataLoader.LoadedPerKindIsIdempotent | src/hooks/useDataLoader.ts:104-123 | with per-kind write-back, a repeated load with the same data changes nothing, from any storage content |
| RouteVisualization.FindCd | src/components/RouteVisualization.tsx:129 | no result exactly when no CD has the id; otherwise a CD of the list with that id |
| RouteVisualization.FindCdIsFirst | src/components/RouteVisualization.tsx:129 | the CD found is the first one in the list with that id |
| RouteVisualization.CdRoutes | src/components/RouteVisualization.tsx:128-131 | every inter-CD route comes from a given connection whose two ends resolve to the route's CDs; there are no more routes than connections |
| RouteVisualization.CdRoutesAtMostOncePerConnection | src/components/RouteVisualization.tsx:128-131 | the routes' connections form a sub-multiset of the connections: no connection is drawn more often than it occurs |
| RouteVisualization.CdRoutesComplete | src/components/RouteVisualization.tsx:128-131 | every connection whose two ends resolve gets a route |
| RouteVisualization.InterCdRoutes | src/components/RouteVisualization.tsx:78-82 | the component draws at most three inter-CD routes, only for connections of its own fixed table, each between CDs of the list whose ids are the connection's ends |
| RouteVisualization.CdRouteDrawnIff | src/components/RouteVisualization.tsx:128-131 | a connection gets a route exactly when both its ids match some CD; a dangling one gets none, and nothing fails |
| RouteVisualization.DeliveryRoutes | src/components/RouteVisualization.tsx:171-173 | every delivery route comes from a given point whose assignedCD resolves to the route's CD; there are no more routes than points |
| RouteVisualization.DeliveryRoutesAtMostOncePerPoint | src/components/RouteVisualization.tsx:171-173 | the routes' points form a sub-multiset of the points: no point is drawn more often than it occurs |
| RouteVisualization.DeliveryRoutesComplete | src/components/RouteVisualization.tsx:171-173 | every point whose assignedCD resolves gets a route |
| RouteVisualization.CdRoutesAllDrawn | src/components/RouteVisualization.tsx:128-131 | when every connection's two ends resolve, there are as many inter-CD routes as connections |
| RouteVisualization.DeliveryRoutesAllDrawn | src/components/RouteVisualization.tsx:171-173 | when every point's assignedCD resolves, there are as many delivery routes as points |
| RouteVisualization.DeliveryRouteDrawnIff | src/components/RouteVisualization.tsx:171-173 | a point gets a route exactly when its assignedCD matches some CD |
| RouteVisualization.CdMarkers | src/components/RouteVisualization.tsx:212-277 | exactly one marker per CD, in order, selected exactly when selectedCD is its id |
| RouteVisualization.PointMarkers | src/components/RouteVisualization.tsx:280-330 | exactly one marker per delivery point, in order; it is hovered exactly when hoveredPoint is its id, marked as from the selected CD exactly when selectedCD is its assignedCD, and its triangle size is 10 when hovered and 8 otherwise |
| RouteVisualization.DanglingPointKeepsMarkerOnly | src/components/RouteVisualization.tsx:280-330 | a point with a dangling assignedCD keeps its marker and has no route |
| RouteVisualization.CdRouteHighlighted | src/components/RouteVisualization.tsx:133 | an inter-CD route is highlighted when the selected CD is either of its ends, and only then; with nothing selected it is not |
| RouteVisualization.DeliveryRouteHighlighted | src/components/RouteVisualization.tsx:175 | a delivery route is highlighted when its assignedCD is selected or its point is hovered, and only then |
| RouteVisualization.RouteHighlightMatchesMarker | src/components/RouteVisualization.tsx:175 | a delivery route is highlighted exactly when selectedCD is its assignedCD or the point is hovered, the same condition that emphasises its marker |
| RouteVisualization.HighlightFollowsSelection | src/components/RouteVisualization.tsx:128-175 | a drawn inter-CD route is highlighted exactly when the selected CD is one of the two CDs it is drawn between; with no selection and no hover nothing is highlighted; with no hover a delivery route is highlighted exactly when its CD is selected |
| RouteVisualization.SelectingCd1HighlightsItsTwoRoutes | src/components/RouteVisualization.tsx:78-82 | in the fixed three-entry table, selecting cd1 highlights cd1–cd2 and cd1–cd3 but not cd2–cd3 |
| RouteVisualization.StatusColor | src/components/RouteVisualization.tsx:46-53 | total; accent exactly for 'delivered', route-active exactly for 'in_transit', the muted default for anything else |
| RouteVisualization.PriorityColor | src/components/RouteVisualization.tsx:55-62 | total; destructive exactly for 'high', route-active exactly for 'medium', the muted default for anything else |
| RouteVisualization.MarkerColours | src/components/RouteVisualization.tsx:46-62 | the colour each status and priority value of a delivery point gets |
| RouteVisualization.AnimationStep | src/components/RouteVisualization.tsx:41 | the next offset is below 20 and even when the previous one is |
| RouteVisualization.OffsetAfter | src/components/RouteVisualization.tsx:36-41 | from 0, the offset is always even and in [0, 18] |
| RouteVisualization.OffsetFirstTenSteps | src/components/RouteVisualization.tsx:36-41 | during the first ten steps from 0 the offset is twice the number of steps |
| RouteVisualization.OffsetPeriodTen | src/components/RouteVisualization.tsx:41 | ten steps bring the offset back to where it was |
| RouteVisualization.OffsetZeroEveryTenSteps | src/components/RouteVisualization.tsx:36-41 | the offset is 0 after every multiple of ten steps |
| RouteVisualization.ClickSelection | src/components/RouteVisualization.tsx:253 | clicking a CD yields null exactly when it was selected, and its id otherwise |
| RouteVisualization.DoubleClickRestores | src/components/RouteVisualization.tsx:253 | two clicks on the same CD restore a selection that was that CD or nothing; otherwise they select nothing |
| RouteVisualization.RouteView.constructor | src/components/RouteVisualization.tsx:35-36 | nothing hovered, offset 0 |
| RouteVisualization.RouteView.AnimationTick | src/components/RouteVisualization.tsx:39-44 | the offset advances by one step and stays even and within [0, 18]; the hover is unchanged |
| RouteVisualization.RouteView.MouseEnter | src/components/RouteVisualization.tsx:314 | the hovered point becomes the entered one |
| RouteVisualization.RouteView.MouseLeave | src/components/RouteVisualization.tsx:315 | nothing is hovered |
| Dashboard.WithStatus | src/components/DMSDashboard.tsx:49-51 | every point of the filtered list has that status, and the list is no longer than the input |
| Dashboard.WithStatusCounts | src/components/DMSDashboard.tsx:49-51 | the filtered list holds each point with that status as many times as the input does, and no other point |
| Dashboard.WithStatusKeepsExactly | src/components/DMSDashboard.tsx:49-51 | a point is in the filtered list exactly when it is in the input and has that status |
| Dashboard.StatusesPartition | src/components/DMSDashboard.tsx:21 | the three filtered lists are together exactly as long as the whole list |
| Dashboard.ComputeMetrics | src/components/DMSDashboard.tsx:48-51 | total is the number of points; each card's count is the length of the list filtered by its status (which `WithStatusCounts` pins down); each count is at most the total, and the three add up to the total |
| Dashboard.MockDataConsistent | src/components/DMSDashboard.tsx:30-46 | in the sample data the CD ids are pairwise distinct and every assignedCD is some CD's id |
| Dashboard.SampleStatusPatternCounts | src/components/DMSDashboard.tsx:48-51 | nine points whose statuses follow the sample's order give counts of 9, 3, 3 and 3 |
| Dashboard.MockMetrics | src/components/DMSDashboard.tsx:36-51 | the sample data has nine deliveries: three delivered, three in transit and three pending |
| Dashboard.MockRoutesAllDrawn | src/components/DMSDashboard.tsx:139-144 | with the sample data the diagram draws all three inter-CD routes and a route for every delivery point |
| Dashboard.DashboardView.constructor | src/components/DMSDashboard.tsx:27 | nothing is selected at first |
| Dashboard.DashboardView.SelectCd | src/components/DMSDashboard.tsx:143 | onCDSelect installs the value it is given |
| Dashboard.DashboardView.SidebarCdClicked | src/components/DMSDashboard.tsx:161 | clicking an entry deselects it when it was selected and selects it otherwise |
| Dashboard.DashboardView.MapCdClicked | src/components/DMSDashboard.tsx:139-144 | a click on a CD in the diagram toggles the page's selection the same way |

## Left out

- Drag and drop, pointer-to-canvas mapping and clamping: the code has none. The component that calls `updatePositions` with new positions is not part of this model.
- `fetch`, `Promise.all`, `response.json()`, `JSON.stringify`/`JSON.parse` and `localStorage` are abstract. A fetch is an input value, and each storage key is one of four abstract values. Serialising and parsing back is assumed to be the identity. A JSON file whose top level is not an array is not modelled.
- `localStorage.setItem` failing (for example, quota exceeded) is not modelled; every write succeeds. In the code, such a failure inside `loadData` would reach its catch block, and inside `updatePositions` it would propagate to the caller.
- React lifecycle and timers (`useState`, `useEffect`, `setInterval`) are discrete events: `EffectRun`, `TimerTick` and `Edit`. The effect body loads unconditionally on mount and again whenever `hasLocalChanges` changes (useDataLoader.ts lines 145 and 155). So the first edit, the one that raises `hasLocalChanges`, is followed by one more load, and `EditSurvivesReload` describes that load when the lengths match. Later edits leave the flag, and so the effect's dependencies, unchanged, and no load follows them.
- DataLoader.Loader.Load: runs a load to completion in one step. The intermediate state with isLoading true and no error (line 80) exists only inside the method. Overlapping loads are concurrency and are out of scope.
- Route geometry in `generateRoute` (square root, `Math.random`, SVG path text) is not modelled: it uses floating point and is nondeterministic.
- The load and delivery percentages are not modelled (RouteVisualization.tsx lines 214 and 237, DMSDashboard.tsx lines 94 and 180). They use floating-point division and divide by zero when the capacity or the total is 0.
- Stroke widths, dash patterns, opacities and everything else about how a route looks are not modelled. This includes the status-dependent stroke of active and in-transit routes. JSX markup, CSS classes, icons, the legend and console logging are also left out.
- Coordinates are `real` and are never computed with. Capacity and load are unbounded integers.
- `vite.config.ts` is build configuration and has no behaviour to verify.

## Findings

| source | as written | input that shows it | evidently intended | confidence | as-written member | corrected member |
|---|---|---|---|---|---|---|
| src/hooks/useDataLoader.ts:120-123 | when either kind falls back to the fetched copy, both keys are overwritten with the fetched originals, although the other kind's saved copy was just installed on screen | the CD key holds one CD moved to (300, 150); the delivery-point key is empty; the fetch returns that CD at (200, 150) and one point. The first load shows the CD at (300, 150) but stores (200, 150); the next refresh, with no edit, moves it back to (200, 150) | overwrite only the key whose kind fell back, so each key holds what is on screen and a repeated load changes nothing | medium, not executed | DataLoader.FirstLoadShowsSavedLayoutOnce | DataLoader.LoadedPerKindIsIdempotent |

The class `Loader` keeps the behaviour as written, because it is what the dashboard does.
`LoadedPerKind` installs the same collections as the code and differs only in which keys
it writes. `SecondLoadIsFixedPoint` shows that the code as written settles after two
loads.
