# ModelViewer viewer-state controller, modelled in Dafny

`ModelViewer` is a React component that lets a user pick or drop a `.glb`/`.gltf`
file and shows it in a `<model-viewer>` element. Its controller logic is:

- the file-type gate shared by the picker and the drop handler;
- the lifecycle of the object URL that points at the chosen file;
- the effect that builds a fresh `<model-viewer>` and swaps it into the container
  whenever `modelFile` changes;
- the camera-framing sequence that runs on `load` and on "reset camera";
- the exposure and environment setters and the fixed registry of environment presets.

The model has seven modules, one per file:

- `Wrappers` (`wrappers.dfy`): `Option`.
- `FileType` (`file_type.dfy`): the gate `file && file.name.match(/\.(glb|gltf)$/i)`.
  The regular expression is modelled as JavaScript runs it: an attempt anchored at
  each position, tried left to right. `AcceptsIffModelExtension` proves it equal
  to "the name ends in `.glb` or `.gltf`, letters compared ignoring case".
- `Environments` (`environments.dfy`): the six presets in their order, with the
  same keys, labels and paths. `Find` models `Array.prototype.find`.
- `Lifecycle` (`lifecycle.dfy`): an event log of URLs created and revoked and of
  widgets attached and detached. `Held` replays the log into the set of resources
  that are alive. It also states the "release before open" discipline and proves
  two things: at most one resource of a kind is alive, and none is released twice.
- `Widgets` (`widget.dfy`): the `<model-viewer>` element as a class. It has the
  attributes the effect sets, the camera goal and shown pose, `auto-rotate`, and
  a `restorePending` flag for the 100 ms restore timer. `Frame` is the framing
  sequence shared by the `load` listener and `handleResetCamera`.
- `Viewer` (`model_viewer.dfy`): the component as a class `ModelViewer`. It holds:
  - the state (`modelFile`, `exposure`, `environment`);
  - the container's child and `modelViewerRef.current`;
  - the browser's URL registry, as a counter plus a set of revoked URLs;
  - the ghost log.

  There is one method per handler. `SetModelFile` is the state update together
  with the re-render it triggers: when the value changes, the cleanup removes
  the old widget, then the effect builds, appends and references a new one.
  The class invariant `Valid` says seven things:
  - the exposure lies in [0, 2];
  - an attached widget is the one the ref points at;
  - the referenced widget (`modelViewerRef.current`) is itself consistent: a
    pending restore means auto-rotation is off;
  - the referenced widget carries the current exposure. When the current key is
    registered, it also carries that preset's image. After unmount the ref still
    points at the removed widget, and the invariant is about that widget;
  - the log agrees with the registry and obeys release-before-open for both URLs
    and widgets;
  - the only unrevoked URL is the active one;
  - an attached widget shows the active URL.
- `Scenarios` (`scenarios.dfy`): short runs of handlers with their expected
  outcomes.

Where the intended design and the code differ, the model follows the code:

- Exposure is not clamped.
- Unmount does not revoke the active URL.
- The restore timer is not cancelled when its widget is removed.
- A `load` notification from a replaced widget still frames that detached widget.
  It touches nothing else.
- In a submission and in "change model", the old URL is revoked before the
  old widget is removed. The revocation happens in the handler, and the widget
  is removed in the re-render that follows.

## Model

| member | source | states |
|---|---|---|
| FileType.Canon | src/app/components/ModelViewer.tsx:124 | lower-case ASCII letters fold to upper case and every other character is kept. The pattern's letters are only g, l, b and t, and JavaScript's non-unicode `/i` never maps a non-ASCII character onto an ASCII one. So for this pattern, folding only the ASCII letters gives the same comparisons as `/i` |
| FileType.MatchAt | src/app/components/ModelViewer.tsx:124 | an attempt of the pattern anchored at one position succeeds only at a '.' and consumes the rest of the name, so `$` holds |
| FileType.Search | src/app/components/ModelViewer.tsx:124 | `name.match(...)` with a non-global pattern: attempts tried from left to right, the first success returned. Its meaning is stated by `SearchIsFirstMatch` (same call at line 142) |
| FileType.SearchIsFirstMatch | src/app/components/ModelViewer.tsx:124 | `match` finds nothing exactly when no position matches; otherwise it returns the leftmost matching position |
| FileType.MatchOnlyAtSuffix | src/app/components/ModelViewer.tsx:124 | a match can start only at the dot of a trailing `.glb` (4 from the end) or `.gltf` (5 from the end), case ignored |
| FileType.SuffixMatches | src/app/components/ModelViewer.tsx:124 | a name ending in `.glb` or `.gltf`, case ignored, matches at the dot of that suffix |
| FileType.Accepts | src/app/components/ModelViewer.tsx:123-124 | the gate `file && file.name.match(...)` of both handlers; `AcceptsIffModelExtension` characterises it (same gate at lines 141-142) |
| FileType.AcceptsIffModelExtension | src/app/components/ModelViewer.tsx:123-124 | a submission is accepted if and only if a file is present and its name ends in `.glb` or `.gltf`, case ignored (same gate at lines 141-142) |
| FileType.UpperCaseAccepted | src/app/components/ModelViewer.tsx:141-142 | `model.GLB` is accepted |
| FileType.OtherFormatRejected | src/app/components/ModelViewer.tsx:141-142 | `model.obj` is rejected, and so is a missing file |
| Environments.Presets | src/app/components/ModelViewer.tsx:16-23 | the six presets in source order, each with its key, label and path as written |
| Environments.Find | src/app/components/ModelViewer.tsx:55 | `environmentOptions.find(env => env.value === key)`. Its meaning is stated by `FindIsFirstMatch` (same lookup at line 208) |
| Environments.EnvironmentImage | src/app/components/ModelViewer.tsx:55-58 | the `environment-image` the lookup applies: the found preset's path, or nothing when the key is not registered. Stated by `LookupKnown` and `LookupUnknown` (same pattern at lines 208-211) |
| Environments.FindIsFirstMatch | src/app/components/ModelViewer.tsx:55 | `find` returns nothing exactly when no option has the key; otherwise it returns the first option with that key (same lookup at line 208) |
| Environments.KeysUnique | src/app/components/ModelViewer.tsx:16-23 | no two presets of the registry share a key |
| Environments.DefaultIsFirst | src/app/components/ModelViewer.tsx:16-31 | the initial environment `neutral` is the first preset and finds it |
| Environments.LookupKnown | src/app/components/ModelViewer.tsx:55-58 | every registered key finds its own preset and yields that preset's path as the environment image |
| Environments.LookupUnknown | src/app/components/ModelViewer.tsx:208-211 | an unregistered key finds nothing and yields no environment image |
| Lifecycle.DisciplinedMeans | src/app/components/ModelViewer.tsx:125-130 | the event-by-event check holds if and only if three things hold: opening only when nothing is alive, releasing only what is alive, and opening fresh identities |
| Lifecycle.HeldWereOpened | src/app/components/ModelViewer.tsx:143-148 | only resources that were opened can be alive |
| Lifecycle.AtMostOneHeld | src/app/components/ModelViewer.tsx:143-148 | releasing before opening keeps at most one resource of a kind alive |
| Lifecycle.PrefixesKeepDisciplines | src/app/components/ModelViewer.tsx:143-148 | a log that keeps the disciplines keeps them without its last event |
| Lifecycle.StaysReleased | src/app/components/ModelViewer.tsx:271-276 | once released, a resource is never alive again |
| Lifecycle.OpenedGrows | src/app/components/ModelViewer.tsx:125-130 | the set of identities opened so far only grows along the log |
| Lifecycle.OpenedBeforeClose | src/app/components/ModelViewer.tsx:125-130 | a released resource was opened earlier |
| Lifecycle.ReleasedAtMostOnce | src/app/components/ModelViewer.tsx:271-276 | no URL or widget is released twice |
| Widgets.Widget.constructor | src/app/components/ModelViewer.tsx:43-58 | a new element has the given `src`, exposure and image, `camera-controls`, `auto-rotate`, `ar`, `auto-scale`, `bounds="tight"`, `auto` orbit limits and the `load` listener, and no restore pending |
| Widgets.Widget.Frame | src/app/components/ModelViewer.tsx:64-82 | whatever the prior pose: goal and shown pose become `0deg 75deg auto`/`auto`, auto-rotate is off, a restore is pending if and only if one already was or auto-rotate was on, and the attributes are unchanged (same sequence at lines 171-192) |
| Widgets.Widget.FireRestoreTimer | src/app/components/ModelViewer.tsx:78-80 | the delayed restore turns auto-rotate back on and changes nothing else (same timer at lines 187-189) |
| Viewer.AgreementKeepsOneAlive | src/app/components/ModelViewer.tsx:84-94 | the viewer's log obeys release-before-open for URLs and widgets: at most one of each is alive and none is released twice |
| Viewer.AgreesCreate | src/app/components/ModelViewer.tsx:129 | creating a URL while none is outstanding keeps the log in agreement and leaves exactly the new URL outstanding |
| Viewer.AgreesRevoke | src/app/components/ModelViewer.tsx:126-128 | revoking the only outstanding URL keeps the log in agreement and leaves nothing outstanding |
| Viewer.AgreesDetach | src/app/components/ModelViewer.tsx:84-88 | removing the attached widget keeps the log in agreement with an empty container |
| Viewer.AgreesAttach | src/app/components/ModelViewer.tsx:90-94 | appending a new widget into an empty container keeps the log in agreement |
| Viewer.ModelViewer.constructor | src/app/components/ModelViewer.tsx:26-31 | initial state: no file, exposure 1, environment `neutral`, no widget, no URL outstanding |
| Viewer.ModelViewer.Phase | src/app/components/ModelViewer.tsx:226 | the `!modelFile` choice: Empty (drop area and picker) exactly when no file is active, Loaded (controls) otherwise (same choice at line 232) |
| Viewer.ModelViewer.RunEffect | src/app/components/ModelViewer.tsx:42-94 | the old child is detached before a fresh widget is attached. The ref points at the fresh widget, which carries the current `modelFile` as `src`, the current exposure and the current preset's image |
| Viewer.ModelViewer.Append | src/app/components/ModelViewer.tsx:90-94 | the widget becomes the container's only child and the ref's target; the log records the attach |
| Viewer.ModelViewer.Cleanup | src/app/components/ModelViewer.tsx:97-102 | the child is removed; the ref and all state are untouched |
| Viewer.ModelViewer.Mount | src/app/components/ModelViewer.tsx:33-103 | the first run of the effect attaches a fresh widget carrying the initial state |
| Viewer.ModelViewer.Unmount | src/app/components/ModelViewer.tsx:97-102 | the widget is removed. No URL is created or revoked, so the active URL stays outstanding. The ref keeps its target, and the state is unchanged |
| Viewer.ModelViewer.SetModelFile | src/app/components/ModelViewer.tsx:103 | a changed `modelFile` in a mounted component replaces the widget by a fresh one bound to the new file; an unchanged value or an unmounted component leaves the widget alone |
| Viewer.ModelViewer.RevokeActive | src/app/components/ModelViewer.tsx:126-128 | the active URL is revoked and nothing is outstanding afterwards |
| Viewer.ModelViewer.CreateObjectUrl | src/app/components/ModelViewer.tsx:129 | a URL never handed out before becomes the only outstanding one |
| Viewer.ModelViewer.Replace | src/app/components/ModelViewer.tsx:125-130 | the old URL (if any) is revoked, then a new one is created and becomes `modelFile`. The log shows revoke, create, detach, attach in that order, and the new widget carries the kept exposure and environment |
| Viewer.ModelViewer.Submit | src/app/components/ModelViewer.tsx:122-152 | accepted: the effects of `Replace`, the viewer is Loaded, and exactly the new URL is outstanding. Rejected: only the notice of the delivering control is added, and the URL, widget, exposure and environment are unchanged |
| Viewer.ModelViewer.HandleChangeModel | src/app/components/ModelViewer.tsx:271-276 | the active URL is revoked and `modelFile` becomes null (Loaded to Empty). A mounted viewer rebuilds its widget with an empty `src`. Exposure and environment are kept |
| Viewer.ModelViewer.HandleResetCamera | src/app/components/ModelViewer.tsx:171-192 | with a widget referenced: the framing pose, auto-rotate off, a restore pending if and only if auto-rotate was on or one already was, attributes unchanged. Without one: nothing changes |
| Viewer.ModelViewer.HandleLoad | src/app/components/ModelViewer.tsx:64-82 | the listener frames its own widget only; when that widget was replaced, the referenced widget is unchanged |
| Viewer.ModelViewer.HandleExposureChange | src/app/components/ModelViewer.tsx:194-200 | exposure state and the live widget's exposure become the value. Camera, other attributes, widget identity, URL and environment are unchanged |
| Viewer.ModelViewer.HandleEnvironmentChange | src/app/components/ModelViewer.tsx:202-213 | the key becomes the environment state. The live widget's image becomes the preset's path when the key is registered and stays as it was otherwise. Camera, exposure, URL and widget identity are unchanged |
| Scenarios.ReloadKeepsParameters | src/app/components/ModelViewer.tsx:53-58 | after exposure 1.5 and preset `pillars` are chosen, loading another model yields a new widget with exposure 1.5 and the `pillars` image; the old URL is revoked and the new one is not |
| Scenarios.ResetIsIdempotent | src/app/components/ModelViewer.tsx:171-192 | a second reset leaves the camera exactly where the first left it, at the framing pose |
| Scenarios.StaleLoadSparesNewWidget | src/app/components/ModelViewer.tsx:64-82 | a `load` from the replaced widget leaves the new widget's camera at its fresh default |
| Scenarios.UnmountedSubmitKeepsRef | src/app/components/ModelViewer.tsx:97-102 | the ref survives unmount on the removed widget. The submission that follows cannot happen in the running component, because React dispatches no handler once it is unmounted. It is allowed here only by the over-approximation noted under "## Left out" (handlers callable in every state); there it attaches nothing, keeps the ref, and leaves only the new URL outstanding |
| Scenarios.RejectedDropOnlyNotifies | src/app/components/ModelViewer.tsx:149-151 | dropping `model.obj` only adds the drop notice |
| Scenarios.ChangeModelEmpties | src/app/components/ModelViewer.tsx:271-276 | "change model" leads to Empty with no URL outstanding and a widget with empty `src` |

## Left out

- Script injection of the model-viewer library (ModelViewer.tsx:35-40): network and DOM I/O.
- The `alt` attribute and the inline width, height and background styles (ModelViewer.tsx:45, 59-61): presentational only.
- JSX layout, the drag-enter/leave highlight and the `isDragging` flag (ModelViewer.tsx:154-169, 215-317): presentational only.
- Which controls are rendered: the code offers the picker only when Empty (ModelViewer.tsx:232-257) and the four controls only when Loaded (ModelViewer.tsx:258-315). The model reports `Phase` but gates no handler on it. Every handler is callable in both phases, and also after `Unmount`, although React dispatches nothing to an unmounted component. This covers every sequence the code allows and some it does not.
- Window-level `dragover`/`drop` default suppression (ModelViewer.tsx:106-120): listener plumbing with no state.
- Real time: the 100 ms restore is a `restorePending` flag, and `FireRestoreTimer` is the timer firing.
- `URL.createObjectURL` and `URL.revokeObjectURL`: modelled as a counter of handed-out URLs and a set of revoked ones. The file contents are not modelled.
- Rendering, asset loading and `jumpCameraToGoal`: the shown pose simply becomes the goal.
- `alert`: modelled as a list of notices.
- `src/app/page.tsx` (theme toggling via `localStorage`): not part of this model.
- React StrictMode double effects and batching of several state updates: each handler and the re-render it causes are treated as one atomic step.
- Viewer.ModelViewer.HandleExposureChange: requires the value to lie in [0, 2], which the range input guarantees. `parseFloat` and the absence of clamping are not modelled beyond that.
- Viewer.ModelViewer.Submit: the event's file list is reduced to its first file, or none (`files?.[0]`).
- Viewer.ModelViewer.Unmount: states what the code does, which is weaker than a teardown that releases everything. The outstanding URL is not revoked and the ref is not cleared.
- Widgets.Widget.FireRestoreTimer: has no precondition that its widget is still attached, because the code never cancels the timer. A restore can therefore reach a detached widget.
- Viewer.ModelViewer.HandleLoad: frames the widget that delivered the notification even when that widget has been detached. Only the newer widget is protected.
