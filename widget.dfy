/**
 * The `<model-viewer>` element as the viewer drives it: the attributes and
 * properties the controller sets, the camera goal it writes and the pose the
 * camera shows, and a flag for the 100 ms timer that turns auto-rotation back
 * on. Rendering itself belongs to the element and is not modelled.
 */
module Widgets {
  import opened Wrappers

  /** An object URL, identified by the order in which the browser handed it out. */
  type Url = nat

  /** A camera orbit (`"<azimuth> <polar> <radius>"`) and a field of view. */
  datatype Pose = Pose(orbit: string, fov: string)

  /** The framing the viewer jumps to on load and on reset. */
  const FramingPose: Pose := Pose("0deg 75deg auto", "auto")

  /** The goal of an element the viewer has not steered yet: its own default camera. */
  const DefaultPose: Pose := Pose("", "")

  /** The attributes the element is created with and that the camera framing leaves alone. */
  datatype Attributes = Attributes(
    src: Option<Url>,
    cameraControls: bool,
    ar: bool,
    autoScale: bool,
    bounds: string,
    minCameraOrbit: string,
    maxCameraOrbit: string,
    exposure: real,
    environmentImage: Option<string>,
    listensForLoad: bool)

  /** The camera side of the element: what the framing sequence and the restore timer change. */
  datatype Camera = Camera(goal: Pose, shown: Pose, autoRotate: bool, restorePending: bool)

  class Widget {
    /** Creation order; lets the event log name the element. */
    ghost const serial: nat

    /** The `src` attribute: the object URL, or the empty string written as `None`. */
    var src: Option<Url>
    var cameraControls: bool
    var autoRotate: bool
    var ar: bool
    var autoScale: bool
    var bounds: string
    var minCameraOrbit: string
    var maxCameraOrbit: string
    var exposure: real
    /** The `environment-image` attribute; `None` while it was never set. */
    var environmentImage: Option<string>
    /** The `load` listener that frames the camera is registered. */
    var listensForLoad: bool
    /** The `cameraOrbit` and `fieldOfView` properties. */
    var goal: Pose
    /** The pose the camera actually shows; `jumpCameraToGoal` makes it the goal. */
    var shown: Pose
    /** A timer that re-adds `auto-rotate` is scheduled and has not fired. */
    var restorePending: bool

    /** While the restore timer is pending, auto-rotation is off, so at most one such timer exists. */
    ghost predicate Valid()
      reads this
    {
      restorePending ==> !autoRotate
    }

    function Attrs(): Attributes
      reads this
    {
      Attributes(src, cameraControls, ar, autoScale, bounds, minCameraOrbit, maxCameraOrbit,
                 exposure, environmentImage, listensForLoad)
    }

    function Cam(): Camera
      reads this
    {
      Camera(goal, shown, autoRotate, restorePending)
    }

    /** The element as the viewer's effect creates and configures it, before anything else touches it. */
    ghost predicate IsFresh(src: Option<Url>, exposure: real, environmentImage: Option<string>)
      reads this
    {
      Attrs() == Attributes(src, true, true, true, "tight", "auto", "auto", exposure, environmentImage, true) &&
      Cam() == Camera(DefaultPose, DefaultPose, true, false)
    }

    /**
     * `document.createElement("model-viewer")` followed by the attribute and
     * property assignments of the effect and the registration of its `load`
     * listener.
     */
    constructor (ghost serial: nat, src: Option<Url>, exposure: real, environmentImage: Option<string>)
      ensures Valid() && this.serial == serial
      ensures IsFresh(src, exposure, environmentImage)
    {
      this.serial := serial;
      this.src := src;
      cameraControls := true;
      autoRotate := true;
      ar := true;
      autoScale := true;
      bounds := "tight";
      minCameraOrbit := "auto";
      maxCameraOrbit := "auto";
      this.exposure := exposure;
      this.environmentImage := environmentImage;
      listensForLoad := true;
      goal := DefaultPose;
      shown := DefaultPose;
      restorePending := false;
    }

    /**
     * The framing sequence shared by the `load` listener and the reset
     * button: note and clear auto-rotation, set the framing goal, jump to it,
     * and schedule the restore of auto-rotation if it was on. Whatever the
     * camera showed before, it ends on the framing pose, so a second framing
     * changes nothing but the restore flag it already set.
     */
    method Frame() returns (wasAutoRotating: bool)
      requires Valid()
      modifies this
      ensures Valid()
      ensures wasAutoRotating == old(autoRotate)
      ensures goal == FramingPose && shown == FramingPose && !autoRotate
      ensures restorePending == (old(restorePending) || wasAutoRotating)
      ensures Attrs() == old(Attrs())
    {
      wasAutoRotating := autoRotate;
      if wasAutoRotating {
        autoRotate := false;
      }
      goal := goal.(orbit := FramingPose.orbit);
      goal := goal.(fov := FramingPose.fov);
      shown := goal;
      if wasAutoRotating {
        restorePending := true;
      }
    }

    /**
     * The scheduled timer fires and re-adds `auto-rotate`. It was never
     * cancelled, so it fires whether or not the element is still attached.
     */
    method FireRestoreTimer()
      requires Valid() && restorePending
      modifies this
      ensures Valid()
      ensures autoRotate && !restorePending
      ensures goal == old(goal) && shown == old(shown)
      ensures Attrs() == old(Attrs())
    {
      autoRotate := true;
      restorePending := false;
    }
  }
}
