/**
 * The viewer-state controller of the ModelViewer component.
 *
 * Component state (`modelFile`, `exposure`, `environment`), the container's
 * `<model-viewer>` child, the `modelViewerRef` slot and the browser's
 * object-URL registry are fields of one object. Each event handler is a
 * method that runs to completion. A state update that changes `modelFile`
 * re-renders the component, which runs the previous effect's cleanup and
 * then the effect again (`SetModelFile`). A ghost log of URL and widget
 * events records the order in which resources are released and opened.
 */
module Viewer {
  import opened Wrappers
  import opened FileType
  import opened Environments
  import opened Lifecycle
  import opened Widgets

  /** Which control delivered a file; the two differ only in the notice shown on rejection. */
  datatype Origin = Picker | Drop

  /** The blocking notices: "choose a GLB or GLTF file" and "drop a GLB or GLTF file". */
  datatype Notice = ChooseModelFile | DropModelFile

  function NoticeFor(origin: Origin): Notice {
    match origin
    case Picker => ChooseModelFile
    case Drop => DropModelFile
  }

  /** The two states of the viewer: no model (drop area shown) and a model (controls shown). */
  datatype Phase = Empty | Loaded

  /** The URLs that are active for a given `modelFile`. */
  function Active(file: Option<Url>): set<Url> {
    if file.Some? then {file.value} else {}
  }

  /** The log entries for revoking the URL held in `file`, if any. */
  function RevokeOf(file: Option<Url>): seq<Event> {
    if file.Some? then [Revoked(file.value)] else []
  }

  /** Object URLs handed out (those below `nextUrl`) and not revoked. */
  ghost function Outstanding(nextUrl: nat, revoked: set<Url>): set<Url> {
    set u: nat | u < nextUrl && u !in revoked
  }

  /**
   * The event log agrees with the URL registry (`nextUrl`, `revoked`) and
   * with the attached widget, and respects the release-before-open
   * disciplines for both kinds of resource.
   */
  ghost predicate Agrees(log: seq<Event>, nextUrl: nat, revoked: set<Url>, nextSerial: nat, attached: set<nat>) {
    && (forall u :: u in revoked ==> u < nextUrl)
    && Held(log, Urls) == Outstanding(nextUrl, revoked)
    && (forall u :: u in Opened(log, Urls) ==> u < nextUrl)
    && Held(log, Widgets) == attached
    && (forall w :: w in Opened(log, Widgets) ==> w < nextSerial)
    && Disciplined(log, Urls) && Disciplined(log, Widgets)
  }

  /**
   * A log that agrees with the registry obeys release-before-open for both
   * kinds of resource, so at most one URL and at most one widget are ever
   * alive, and none is released twice.
   */
  lemma AgreementKeepsOneAlive(log: seq<Event>, nextUrl: nat, revoked: set<Url>, nextSerial: nat, attached: set<nat>)
    requires Agrees(log, nextUrl, revoked, nextSerial, attached)
    ensures OpenOnlyWhenClear(log, Urls) && CloseOnlyHeld(log, Urls) && OpensFresh(log, Urls)
    ensures OpenOnlyWhenClear(log, Widgets) && CloseOnlyHeld(log, Widgets) && OpensFresh(log, Widgets)
    ensures |Held(log, Urls)| <= 1 && |Held(log, Widgets)| <= 1
    ensures forall i, j :: 0 <= i < j < |log| && log[i].Revoked? && log[j].Revoked? ==> log[i].url != log[j].url
    ensures forall i, j :: 0 <= i < j < |log| && log[i].Detached? && log[j].Detached? ==> log[i].widget != log[j].widget
  {
    DisciplinedMeans(log, Urls);
    DisciplinedMeans(log, Widgets);
    AtMostOneHeld(log, Urls);
    AtMostOneHeld(log, Widgets);
    ReleasedAtMostOnce(log, Urls);
    ReleasedAtMostOnce(log, Widgets);
  }

  lemma AgreesCreate(log: seq<Event>, nextUrl: nat, revoked: set<Url>, nextSerial: nat, attached: set<nat>)
    requires Agrees(log, nextUrl, revoked, nextSerial, attached) && Outstanding(nextUrl, revoked) == {}
    ensures Agrees(log + [Created(nextUrl)], nextUrl + 1, revoked, nextSerial, attached)
    ensures Outstanding(nextUrl + 1, revoked) == {nextUrl}
  {
    var e := Created(nextUrl);
    HeldAppend(log, e, Urls);
    HeldAppend(log, e, Widgets);
    assert Outstanding(nextUrl + 1, revoked) == Outstanding(nextUrl, revoked) + {nextUrl};
  }

  lemma AgreesRevoke(log: seq<Event>, nextUrl: nat, revoked: set<Url>, nextSerial: nat, attached: set<nat>, u: Url)
    requires Agrees(log, nextUrl, revoked, nextSerial, attached) && Outstanding(nextUrl, revoked) == {u}
    ensures Agrees(log + [Revoked(u)], nextUrl, revoked + {u}, nextSerial, attached)
    ensures Outstanding(nextUrl, revoked + {u}) == {}
  {
    var e := Revoked(u);
    HeldAppend(log, e, Urls);
    HeldAppend(log, e, Widgets);
    assert Outstanding(nextUrl, revoked + {u}) == Outstanding(nextUrl, revoked) - {u};
  }

  lemma AgreesDetach(log: seq<Event>, nextUrl: nat, revoked: set<Url>, nextSerial: nat, w: nat)
    requires Agrees(log, nextUrl, revoked, nextSerial, {w})
    ensures Agrees(log + [Detached(w)], nextUrl, revoked, nextSerial, {})
  {
    var e := Detached(w);
    HeldAppend(log, e, Urls);
    HeldAppend(log, e, Widgets);
  }

  lemma AgreesAttach(log: seq<Event>, nextUrl: nat, revoked: set<Url>, nextSerial: nat)
    requires Agrees(log, nextUrl, revoked, nextSerial, {})
    ensures Agrees(log + [Attached(nextSerial)], nextUrl, revoked, nextSerial + 1, {nextSerial})
  {
    var e := Attached(nextSerial);
    HeldAppend(log, e, Urls);
    HeldAppend(log, e, Widgets);
  }

  class ModelViewer {
    /** The `modelFile` state: the active object URL, or null. */
    var modelFile: Option<Url>
    /** The `exposure` state. */
    var exposure: real
    /** The `environment` state: the selected preset key. */
    var environment: string
    /** The `<model-viewer>` child of the container, if one is attached. */
    var container: Widget?
    /** `modelViewerRef.current`. */
    var viewerRef: Widget?
    /** Notices shown to the user, in order. */
    var notices: seq<Notice>
    /** The browser's object-URL registry: URLs handed out so far and those revoked. */
    var nextUrl: nat
    var revoked: set<Url>

    ghost var nextSerial: nat
    ghost var log: seq<Event>

    /** Handed-out object URLs that have not been revoked. */
    ghost function Unreleased(): set<Url>
      reads this
    {
      Outstanding(nextUrl, revoked)
    }

    function Phase(): Phase
      reads this
    {
      if modelFile.Some? then Loaded else Empty
    }

    /** The invariant that holds between the steps of a handler. */
    ghost predicate Inv()
      reads this, viewerRef, container
    {
      && 0.0 <= exposure <= 2.0
      && (container != null ==> viewerRef == container)
      && (viewerRef != null ==>
            && viewerRef.Valid()
            && viewerRef.exposure == exposure
            && (EnvironmentImage(environment).Some? ==> viewerRef.environmentImage == EnvironmentImage(environment)))
      && Agrees(log, nextUrl, revoked, nextSerial, if container != null then {container.serial} else {})
    }

    /**
     * The object invariant: only the active URL is unreleased, and an
     * attached widget shows the active URL.
     */
    ghost predicate Valid()
      reads this, viewerRef, container
    {
      && Inv()
      && Unreleased() == Active(modelFile)
      && (container != null ==> container.src == modelFile)
    }

    /** The initial state of the component, before its first effect runs. */
    constructor ()
      ensures Valid()
      ensures modelFile == None && exposure == 1.0 && environment == DefaultEnvironment
      ensures container == null && viewerRef == null && notices == []
      ensures Unreleased() == {} && log == []
    {
      modelFile := None;
      exposure := 1.0;
      environment := DefaultEnvironment;
      container := null;
      viewerRef := null;
      notices := [];
      nextUrl := 0;
      revoked := {};
      nextSerial := 0;
      log := [];
    }

    /**
     * The effect body: create and configure a widget with the current
     * parameters, remove an existing child, append the new one and point the
     * ref at it.
     */
    method RunEffect()
      requires Valid()
      modifies this
      ensures Valid()
      ensures container != null && fresh(container) && viewerRef == container
      ensures container.IsFresh(modelFile, exposure, EnvironmentImage(environment))
      ensures log == old(log) + (if old(container) != null then [Detached(old(container).serial)] else [])
                              + [Attached(container.serial)]
      ensures modelFile == old(modelFile) && exposure == old(exposure) && environment == old(environment)
      ensures notices == old(notices) && nextUrl == old(nextUrl) && revoked == old(revoked)
    {
      var w := new Widget(nextSerial, modelFile, exposure, EnvironmentImage(environment));
      Cleanup();
      Append(w);
    }

    /** `appendChild` of a newly created widget, and the ref pointed at it. */
    method Append(w: Widget)
      requires Inv() && container == null && w.serial == nextSerial && w.Valid()
      requires w.exposure == exposure && w.environmentImage == EnvironmentImage(environment)
      modifies this
      ensures Inv() && container == w && viewerRef == w
      ensures log == old(log) + [Attached(w.serial)]
      ensures modelFile == old(modelFile) && exposure == old(exposure) && environment == old(environment)
      ensures notices == old(notices) && nextUrl == old(nextUrl) && revoked == old(revoked)
    {
      AgreesAttach(log, nextUrl, revoked, nextSerial);
      log := log + [Attached(w.serial)];
      nextSerial := nextSerial + 1;
      container := w;
      viewerRef := w;
    }

    /** The effect's cleanup: remove the `<model-viewer>` child; the ref is left as it was. */
    method Cleanup()
      requires Inv()
      modifies this
      ensures Inv() && container == null
      ensures log == old(log) + (if old(container) != null then [Detached(old(container).serial)] else [])
      ensures viewerRef == old(viewerRef) && modelFile == old(modelFile) && nextSerial == old(nextSerial)
      ensures exposure == old(exposure) && environment == old(environment)
      ensures notices == old(notices) && nextUrl == old(nextUrl) && revoked == old(revoked)
    {
      if container != null {
        AgreesDetach(log, nextUrl, revoked, nextSerial, container.serial);
        log := log + [Detached(container.serial)];
        container := null;
      }
    }

    /** The component is mounted: the first run of the effect. */
    method Mount()
      requires Valid() && container == null
      modifies this
      ensures Valid()
      ensures container != null && fresh(container) && viewerRef == container
      ensures container.IsFresh(modelFile, exposure, EnvironmentImage(environment))
      ensures log == old(log) + [Attached(container.serial)]
      ensures modelFile == old(modelFile) && exposure == old(exposure) && environment == old(environment)
      ensures notices == old(notices) && nextUrl == old(nextUrl) && revoked == old(revoked)
    {
      RunEffect();
    }

    /**
     * The component is unmounted: the cleanup removes the widget. The active
     * URL is not revoked and the ref keeps pointing at the removed widget.
     */
    method Unmount()
      requires Valid()
      modifies this
      ensures Valid() && container == null && viewerRef == old(viewerRef)
      ensures log == old(log) + (if old(container) != null then [Detached(old(container).serial)] else [])
      ensures modelFile == old(modelFile) && Unreleased() == old(Unreleased())
      ensures exposure == old(exposure) && environment == old(environment)
      ensures notices == old(notices) && nextUrl == old(nextUrl) && revoked == old(revoked)
    {
      Cleanup();
    }

    /**
     * `setModelFile(file)` and the re-render it causes: when the value
     * changes and the component is mounted, the cleanup removes the old
     * widget and the effect attaches a new one bound to `file`.
     */
    method SetModelFile(file: Option<Url>)
      requires Inv() && Unreleased() == Active(file)
      requires container != null ==> container.src == modelFile
      modifies this
      ensures Valid() && modelFile == file
      ensures old(container) != null && file != old(modelFile) ==>
                container != null && fresh(container) &&
                container.IsFresh(file, exposure, EnvironmentImage(environment)) &&
                log == old(log) + [Detached(old(container).serial), Attached(container.serial)]
      ensures old(container) == null || file == old(modelFile) ==>
                container == old(container) && viewerRef == old(viewerRef) && log == old(log)
      ensures exposure == old(exposure) && environment == old(environment)
      ensures notices == old(notices) && nextUrl == old(nextUrl) && revoked == old(revoked)
    {
      if file != modelFile {
        modelFile := file;
        if container != null {
          Cleanup();
          RunEffect();
        }
      }
    }

    /** `URL.revokeObjectURL` on the active URL. */
    method RevokeActive()
      requires Valid() && modelFile.Some?
      modifies this`revoked, this`log
      ensures Inv() && Unreleased() == {}
      ensures revoked == old(revoked) + {old(modelFile).value}
      ensures log == old(log) + [Revoked(old(modelFile).value)]
    {
      var u := modelFile.value;
      AgreesRevoke(log, nextUrl, revoked, nextSerial, Held(log, Widgets), u);
      log := log + [Revoked(u)];
      revoked := revoked + {u};
    }

    /** `URL.createObjectURL`: hands out a URL never handed out before. */
    method CreateObjectUrl() returns (u: Url)
      requires Inv() && Unreleased() == {}
      modifies this`nextUrl, this`log
      ensures Inv() && Unreleased() == {u}
      ensures u == old(nextUrl) && nextUrl == u + 1
      ensures log == old(log) + [Created(u)]
    {
      u := nextUrl;
      AgreesCreate(log, nextUrl, revoked, nextSerial, Held(log, Widgets));
      log := log + [Created(u)];
      nextUrl := nextUrl + 1;
    }

    /**
     * The accepted branch of the submission handlers: revoke the active URL,
     * if any, then create a URL for the file and make it active.
     */
    method Replace()
      requires Valid()
      modifies this
      ensures Valid()
      ensures modelFile == Some(old(nextUrl)) && nextUrl == old(nextUrl) + 1
      ensures Unreleased() == {modelFile.value} && revoked == old(revoked) + Active(old(modelFile))
      ensures old(container) != null ==>
                && container != null && fresh(container)
                && container.IsFresh(modelFile, exposure, EnvironmentImage(environment))
                && log == old(log) + RevokeOf(old(modelFile))
                                   + [Created(modelFile.value), Detached(old(container).serial), Attached(container.serial)]
      ensures old(container) == null ==>
                && container == null && viewerRef == old(viewerRef)
                && log == old(log) + RevokeOf(old(modelFile)) + [Created(modelFile.value)]
      ensures exposure == old(exposure) && environment == old(environment) && notices == old(notices)
    {
      if modelFile.Some? {
        RevokeActive();
      }
      var u := CreateObjectUrl();
      SetModelFile(Some(u));
    }

    /**
     * `handleFileChange` and `handleDrop`: a present file with a `.glb` or
     * `.gltf` name revokes the active URL, if any, then creates a URL for the
     * file and makes it active, which rebuilds the widget with the current
     * exposure and environment. Anything else only shows the notice of the
     * control that delivered it.
     */
    method Submit(file: Option<FileRef>, origin: Origin)
      requires Valid()
      modifies this
      ensures Valid()
      ensures Accepts(file) ==>
                && modelFile == Some(old(nextUrl)) && nextUrl == old(nextUrl) + 1
                && Phase() == Loaded && Unreleased() == {modelFile.value}
                && revoked == old(revoked) + Active(old(modelFile))
                && notices == old(notices)
      ensures Accepts(file) && old(container) != null ==>
                && container != null && fresh(container)
                && container.IsFresh(modelFile, exposure, EnvironmentImage(environment))
                && log == old(log) + RevokeOf(old(modelFile))
                                   + [Created(modelFile.value), Detached(old(container).serial), Attached(container.serial)]
      ensures Accepts(file) && old(container) == null ==>
                && container == null && viewerRef == old(viewerRef)
                && log == old(log) + RevokeOf(old(modelFile)) + [Created(modelFile.value)]
      ensures !Accepts(file) ==>
                && modelFile == old(modelFile) && nextUrl == old(nextUrl) && revoked == old(revoked)
                && container == old(container) && viewerRef == old(viewerRef) && log == old(log)
                && notices == old(notices) + [NoticeFor(origin)]
      ensures exposure == old(exposure) && environment == old(environment)
    {
      if Accepts(file) {
        Replace();
      } else {
        notices := notices + [NoticeFor(origin)];
      }
    }

    /**
     * The "change model" button: revoke the active URL, if any, and clear
     * `modelFile`. A mounted viewer then rebuilds its widget with an empty
     * `src`.
     */
    method HandleChangeModel()
      requires Valid()
      modifies this
      ensures Valid()
      ensures modelFile == None && Phase() == Empty && Unreleased() == {}
      ensures revoked == old(revoked) + Active(old(modelFile))
      ensures old(modelFile).Some? && old(container) != null ==>
                && container != null && fresh(container)
                && container.IsFresh(None, exposure, EnvironmentImage(environment))
                && log == old(log) + [Revoked(old(modelFile).value), Detached(old(container).serial), Attached(container.serial)]
      ensures old(modelFile).None? || old(container) == null ==>
                && container == old(container) && viewerRef == old(viewerRef)
                && log == old(log) + RevokeOf(old(modelFile))
      ensures exposure == old(exposure) && environment == old(environment)
      ensures notices == old(notices) && nextUrl == old(nextUrl)
    {
      if modelFile.Some? {
        RevokeActive();
      }
      SetModelFile(None);
    }

    /**
     * `handleResetCamera`: frame the camera of the widget the ref points at;
     * nothing happens when there is none.
     */
    method HandleResetCamera()
      requires Valid()
      modifies viewerRef
      ensures Valid()
      ensures viewerRef != null ==>
                && viewerRef.goal == FramingPose && viewerRef.shown == FramingPose && !viewerRef.autoRotate
                && viewerRef.restorePending == (old(viewerRef.restorePending) || old(viewerRef.autoRotate))
                && viewerRef.Attrs() == old(viewerRef.Attrs())
    {
      if viewerRef != null {
        var _ := viewerRef.Frame();
      }
    }

    /**
     * The `load` listener of widget `w`. It is scoped to `w`: it frames `w`
     * and nothing else, so a notification from a widget that was replaced
     * leaves the attached widget and the component state as they were.
     */
    method HandleLoad(w: Widget)
      requires Valid() && w.Valid()
      modifies w
      ensures Valid() && w.Valid()
      ensures w.goal == FramingPose && w.shown == FramingPose && !w.autoRotate
      ensures w.restorePending == (old(w.restorePending) || old(w.autoRotate))
      ensures w.Attrs() == old(w.Attrs())
      ensures viewerRef != null && viewerRef != w ==> unchanged(viewerRef)
    {
      var _ := w.Frame();
    }

    /**
     * `handleExposureChange`: the range input delivers a value in [0, 2],
     * which becomes the exposure state and the live widget's exposure. The
     * camera, the active URL and the widget's identity are untouched.
     */
    method HandleExposureChange(value: real)
      requires Valid() && 0.0 <= value <= 2.0
      modifies this, viewerRef
      ensures Valid()
      ensures exposure == value
      ensures viewerRef == old(viewerRef) && container == old(container)
      ensures viewerRef != null ==>
                viewerRef.Cam() == old(viewerRef.Cam()) &&
                viewerRef.Attrs() == old(viewerRef.Attrs()).(exposure := value)
      ensures modelFile == old(modelFile) && environment == old(environment) && log == old(log)
      ensures notices == old(notices) && nextUrl == old(nextUrl) && revoked == old(revoked)
    {
      exposure := value;
      if viewerRef != null {
        viewerRef.exposure := value;
      }
    }

    /**
     * `handleEnvironmentChange`: the key becomes the environment state; the
     * live widget's `environment-image` becomes that preset's path when the
     * key is registered and stays as it was otherwise.
     */
    method HandleEnvironmentChange(key: string)
      requires Valid()
      modifies this, viewerRef
      ensures Valid()
      ensures environment == key
      ensures viewerRef == old(viewerRef) && container == old(container)
      ensures viewerRef != null ==>
                viewerRef.Cam() == old(viewerRef.Cam()) &&
                viewerRef.Attrs() == old(viewerRef.Attrs()).(environmentImage :=
                  if EnvironmentImage(key).Some? then EnvironmentImage(key) else old(viewerRef.environmentImage))
      ensures modelFile == old(modelFile) && exposure == old(exposure) && log == old(log)
      ensures notices == old(notices) && nextUrl == old(nextUrl) && revoked == old(revoked)
    {
      environment := key;
      if viewerRef != null {
        var selected := Lookup(key);
        if selected.Some? {
          viewerRef.environmentImage := Some(selected.value.path);
        }
      }
    }
  }
}
