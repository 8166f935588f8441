/**
 * The page script's module-level variables as an object, and its functions as methods that update them
 * in place. Each method is proved against the corresponding function of module Animation.
 */
module Page {
  import opened Wrappers
  import opened Vectors
  import Ascii
  import Camera
  import Sections
  import opened Animation

  class ClownScene {
    var mixer: bool
    var clown: bool
    var animations: map<string, string>
    var currentAnimation: Option<string>
    var isWalking: bool
    /** The calls made on the mixer, the controls and the renderer, in order. */
    var trace: seq<Event>

    function Snapshot(): State
      reads this
    {
      State(mixer, clown, animations, currentAnimation, isWalking, trace)
    }

    ghost predicate Valid()
      reads this
    {
      Inv(Snapshot())
    }

    /** The state when the script starts: nothing loaded, no animation, not walking. */
    constructor ()
      ensures Valid() && Snapshot() == Init
    {
      mixer, clown := false, false;
      animations := map[];
      currentAnimation := None;
      isWalking := false;
      trace := [];
    }

    method PlayAnimation(name: string)
      requires Valid()
      modifies this
      ensures Valid() && Snapshot() == Play(old(Snapshot()), name)
    {
      PlayKeepsInv(Snapshot(), name);
      if !mixer || name !in animations {
        return;
      }
      if currentAnimation == Some(name) {
        return;
      }
      trace := trace + [StopAll];
      currentAnimation := Some(name);
      trace := trace + [Start(name)];
      isWalking := name == "walk";
      assert trace == old(trace) + [StopAll, Start(name)];
    }

    /** The loader's completion callback, given the names of the asset's clips in order. */
    method LoadComplete(clips: seq<string>)
      requires Valid()
      modifies this
      ensures Valid() && Snapshot() == Load(old(Snapshot()), clips)
    {
      LoadKeepsInv(Snapshot(), clips);
      FillKeepsInv(Snapshot(), clips);
      clown := true;
      mixer := true;
      var i := 0;
      while i < |clips|
        invariant 0 <= i <= |clips|
        invariant animations == RegisterClips(old(animations), clips[..i])
        invariant Snapshot() == old(Snapshot()).(mixer := true, clown := true, animations := animations)
      {
        var animationName := Ascii.ToLower(clips[i]);
        animations := animations[animationName := clips[i]];
        assert clips[..i + 1][..i] == clips[..i];
        i := i + 1;
      }
      assert clips[..|clips|] == clips;
      PlayAnimation("idle");
      trace := trace + [ControlsUpdate];
    }

    /** The intersection observer's callback for one delivered batch. */
    method OnIntersections(entries: seq<Sections.Entry>)
      requires Valid()
      modifies this
      ensures Valid() && Snapshot() == Dispatch(old(Snapshot()), entries)
    {
      var i := 0;
      while i < |entries|
        invariant 0 <= i <= |entries|
        invariant Valid() && Snapshot() == Dispatch(old(Snapshot()), entries[..i])
      {
        var entry := entries[i];
        assert entries[..i + 1][..i] == entries[..i];
        if entry.isIntersecting {
          match Sections.SectionToAnimation(entry.id) {
            case Some(name) => PlayAnimation(name);
            case None =>
          }
        }
        i := i + 1;
      }
      assert entries[..|entries|] == entries;
    }

    /** One frame of `animate`: `delta` is the clock's reading and `target` the model's position this frame. */
    method AnimateFrame(delta: real, target: Vec3)
      requires Valid()
      modifies this
      ensures Valid() && Snapshot() == Animate(old(Snapshot()), delta, target)
    {
      AnimateKeepsInv(Snapshot(), delta, target);
      ghost var events := FrameEvents(Snapshot(), delta, target);
      ghost var before := trace;
      if mixer {
        trace := trace + [MixerUpdate(delta)];
      }
      if isWalking && clown {
        trace := trace + [Follow(Camera.Follow(target))];
      }
      trace := trace + [ControlsUpdate];
      trace := trace + [Render];
      assert trace == before + events;
    }
  }
}
