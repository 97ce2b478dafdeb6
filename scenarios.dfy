/**
 * Short runs of the viewer's handlers, each ending in the state the
 * component is expected to reach.
 */
module Scenarios {
  import opened Wrappers
  import opened FileType
  import opened Environments
  import opened Widgets
  import opened Viewer

  /**
   * Exposure and environment chosen while a model is shown survive loading
   * another model: the rebuilt widget carries them, not the defaults.
   */
  method ReloadKeepsParameters(v: ModelViewer)
    requires v.Valid() && v.container != null && v.modelFile.Some?
    modifies v, v.viewerRef
    ensures v.container != null && v.container != old(v.container)
    ensures v.container.exposure == 1.5
    ensures v.container.environmentImage == Some(Presets[4].path)
    ensures v.modelFile.Some? && v.container.src == v.modelFile && v.modelFile.value !in v.revoked && old(v.modelFile).value in v.revoked
  {
    v.HandleExposureChange(1.5);
    v.HandleEnvironmentChange("pillars");
    LookupKnown(4);
    UpperCaseAccepted();
    v.Submit(Some(FileRef("model.GLB")), Picker);
  }

  /** A second reset leaves the camera exactly as the first one did. */
  method ResetIsIdempotent(v: ModelViewer) returns (once: Camera)
    requires v.Valid() && v.viewerRef != null
    modifies v.viewerRef
    ensures v.viewerRef.Cam() == once
    ensures once.goal == FramingPose && once.shown == FramingPose && !once.autoRotate
  {
    v.HandleResetCamera();
    once := v.viewerRef.Cam();
    v.HandleResetCamera();
  }

  /**
   * A `load` notification from the widget a reload replaced frames only that
   * detached widget: the new one keeps its fresh camera.
   */
  method StaleLoadSparesNewWidget(v: ModelViewer)
    requires v.Valid() && v.container != null
    modifies v, v.container
    ensures v.container != null && v.container.Cam() == Camera(DefaultPose, DefaultPose, true, false)
  {
    var stale := v.container;
    UpperCaseAccepted();
    v.Submit(Some(FileRef("model.GLB")), Drop);
    v.HandleLoad(stale);
  }

  /** Dropping a file of another format changes nothing but the notices. */
  method RejectedDropOnlyNotifies(v: ModelViewer)
    requires v.Valid()
    modifies v
    ensures v.modelFile == old(v.modelFile) && v.container == old(v.container)
    ensures v.exposure == old(v.exposure) && v.environment == old(v.environment)
    ensures v.notices == old(v.notices) + [DropModelFile]
  {
    OtherFormatRejected();
    v.Submit(Some(FileRef("model.obj")), Drop);
  }

  /** "Change model" on a shown model returns to the empty state with an empty-`src` widget. */
  method ChangeModelEmpties(v: ModelViewer)
    requires v.Valid() && v.container != null && v.modelFile.Some?
    modifies v
    ensures v.Phase() == Empty && v.Unreleased() == {}
    ensures v.container != null && v.container.src == None
  {
    v.HandleChangeModel();
  }

  /**
   * After unmount the ref still points at the removed widget, and a later
   * accepted submission neither clears it nor attaches a new widget.
   */
  method UnmountedSubmitKeepsRef(v: ModelViewer)
    requires v.Valid()
    modifies v
    ensures v.container == null && v.viewerRef == old(v.viewerRef)
    ensures v.modelFile.Some? && v.Unreleased() == {v.modelFile.value}
  {
    v.Unmount();
    UpperCaseAccepted();
    v.Submit(Some(FileRef("model.GLB")), Picker);
  }
}
