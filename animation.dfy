/**
 * The page script's module-level state as a value, and each of its operations
 * (playAnimation, the loader's completion callback, the observer callback and
 * one frame of the render loop) as a function from the old state to the new.
 * The side effects on the mixer, the controls and the renderer are recorded
 * as events in a trace.
 */
module Animation {
  import opened Wrappers
  import opened Vectors
  import Ascii
  import Camera
  import Sections

  datatype Event =
    | StopAll                        // mixer.stopAllAction()
    | Start(name: string)            // animations[name].reset().play()
    | MixerUpdate(delta: real)       // mixer.update(delta)
    | Follow(pose: Camera.Pose)      // cameraFollow(clown)
    | ControlsUpdate                 // controls.update()
    | Render                         // renderer.render(scene, camera)

  /**
   * `mixer` and `clown` say whether those objects exist yet; `animations` maps a
   * lower-cased clip name to the name of the clip whose action it holds.
   */
  datatype State = State(
    mixer: bool,
    clown: bool,
    animations: map<string, string>,
    currentAnimation: Option<string>,
    isWalking: bool,
    trace: seq<Event>)

  /** The state before anything has loaded. */
  const Init: State := State(false, false, map[], None, false, [])

  // ---------------------------------------------------------------- playAnimation

  /** The guard of playAnimation: a mixer exists and the name has a registry entry. */
  predicate Available(s: State, name: string) {
    s.mixer && name in s.animations
  }

  function Play(s: State, name: string): State {
    if !Available(s, name) then s
    else if s.currentAnimation == Some(name) then s
    else s.(currentAnimation := Some(name), isWalking := name == "walk", trace := s.trace + [StopAll, Start(name)])
  }

  /** playAnimation applied to each name in turn. */
  function PlayAll(s: State, names: seq<string>): State
    decreases |names|
  {
    if names == [] then s else Play(PlayAll(s, names[..|names| - 1]), names[|names| - 1])
  }

  /** A call changes the state exactly when the clip is available and not already current; then it switches to it. */
  lemma PlayEffect(s: State, name: string)
    ensures Play(s, name) == s <==> !Available(s, name) || s.currentAnimation == Some(name)
    ensures Play(s, name) != s ==>
      Play(s, name).currentAnimation == Some(name) && Play(s, name).isWalking == (name == "walk") &&
      Play(s, name).trace == s.trace + [StopAll, Start(name)] &&
      Play(s, name).animations == s.animations && Play(s, name).mixer == s.mixer && Play(s, name).clown == s.clown
  {
    if Available(s, name) && s.currentAnimation != Some(name) {
      assert |Play(s, name).trace| == |s.trace| + 2;
    }
  }

  /** Requesting the same animation twice in a row is the same as requesting it once. */
  lemma PlayIdempotent(s: State, name: string)
    ensures Play(Play(s, name), name) == Play(s, name)
  {
  }

  /** The number of clip starts in a trace. */
  function Starts(t: seq<Event>): nat
    decreases |t|
  {
    if t == [] then 0 else Starts(t[..|t| - 1]) + (if t[|t| - 1].Start? then 1 else 0)
  }

  lemma {:induction false} StartsAppend(a: seq<Event>, b: seq<Event>)
    ensures Starts(a + b) == Starts(a) + Starts(b)
    decreases |b|
  {
    if b == [] {
      assert a + b == a;
    } else {
      var k := |b| - 1;
      assert (a + b)[..|a + b| - 1] == a + b[..k];
      StartsAppend(a, b[..k]);
    }
  }

  lemma {:induction false} NoStarts(t: seq<Event>)
    requires forall i :: 0 <= i < |t| ==> !t[i].Start?
    ensures Starts(t) == 0
    decreases |t|
  {
    if t != [] {
      var k := |t| - 1;
      assert forall i :: 0 <= i < k ==> t[..k][i] == t[i];
      NoStarts(t[..k]);
    }
  }

  /** Two consecutive calls with the same name start at most one clip, and exactly one when the first call switches. */
  lemma {:induction false} RepeatedRequestStartsOnce(s: State, name: string)
    ensures Starts(Play(Play(s, name), name).trace) ==
      Starts(s.trace) + (if Available(s, name) && s.currentAnimation != Some(name) then 1 else 0)
  {
    PlayIdempotent(s, name);
    if Available(s, name) && s.currentAnimation != Some(name) {
      StartsAppend(s.trace, [StopAll, Start(name)]);
      assert [StopAll, Start(name)][..1] == [StopAll];
      assert [StopAll][..0] == [];
    }
  }

  // ---------------------------------------------------------------- the load race

  /** Before the mixer exists, any sequence of requests changes nothing at all. */
  lemma {:induction false} RequestsBeforeLoad(s: State, names: seq<string>)
    requires !s.mixer
    ensures PlayAll(s, names) == s
    decreases |names|
  {
    if names != [] {
      RequestsBeforeLoad(s, names[..|names| - 1]);
    }
  }

  /** From the initial state, requests made before loading (including "walk") leave no animation and no walking. */
  lemma RequestsFromInitBeforeLoad(names: seq<string>)
    ensures PlayAll(Init, names).currentAnimation == None
    ensures !PlayAll(Init, names).isWalking
    ensures PlayAll(Init, names).trace == []
  {
    RequestsBeforeLoad(Init, names);
  }

  // ---------------------------------------------------------------- the load callback

  /** The registry fill: each clip, in order, is stored under its lower-cased name. */
  function RegisterClips(reg: map<string, string>, clips: seq<string>): map<string, string>
    decreases |clips|
  {
    if clips == [] then reg
    else
      var c := clips[|clips| - 1];
      RegisterClips(reg, clips[..|clips| - 1])[Ascii.ToLower(c) := c]
  }

  /** The index of the last clip whose lower-cased name is `k`, if there is one. */
  function LastWith(clips: seq<string>, k: string): (r: Option<nat>)
    ensures r.Some? ==> (r.value < |clips| && Ascii.ToLower(clips[r.value]) == k &&
      forall j :: r.value < j < |clips| ==> Ascii.ToLower(clips[j]) != k)
    ensures r.None? ==> forall j :: 0 <= j < |clips| ==> Ascii.ToLower(clips[j]) != k
    decreases |clips|
  {
    if clips == [] then None
    else if Ascii.ToLower(clips[|clips| - 1]) == k then Some(|clips| - 1)
    else LastWith(clips[..|clips| - 1], k)
  }

  /**
   * After the fill the keys are the old keys and the lower-cased clip names, and nothing else; a key
   * that some clip lowers to holds the LAST such clip, any other key keeps its old clip.
   */
  lemma {:induction false} RegisterClipsAt(reg: map<string, string>, clips: seq<string>, k: string)
    ensures k in RegisterClips(reg, clips) <==> k in reg || LastWith(clips, k).Some?
    ensures k in RegisterClips(reg, clips) ==>
      RegisterClips(reg, clips)[k] == if LastWith(clips, k).Some? then clips[LastWith(clips, k).value] else reg[k]
    decreases |clips|
  {
    if clips != [] {
      var n := |clips| - 1;
      RegisterClipsAt(reg, clips[..n], k);
      if Ascii.ToLower(clips[n]) != k {
        var w := LastWith(clips[..n], k);
        if w.Some? {
          assert clips[..n][w.value] == clips[w.value];
        }
      }
    }
  }

  /** The keys after the fill, by clip membership. */
  lemma RegisterClipsKeys(reg: map<string, string>, clips: seq<string>, k: string)
    ensures k in RegisterClips(reg, clips) <==>
      k in reg || exists i :: 0 <= i < |clips| && Ascii.ToLower(clips[i]) == k
  {
    RegisterClipsAt(reg, clips, k);
  }

  /** From an empty registry every key is the lower-cased form of some clip name, and holds that clip. */
  lemma RegistryFromClips(clips: seq<string>, k: string)
    ensures k in RegisterClips(map[], clips) <==> exists i :: 0 <= i < |clips| && Ascii.ToLower(clips[i]) == k
    ensures k in RegisterClips(map[], clips) ==> Ascii.ToLower(RegisterClips(map[], clips)[k]) == k
  {
    RegisterClipsKeys(map[], clips, k);
    RegisterClipsAt(map[], clips, k);
  }

  /** The loader's completion callback: mixer and model appear, clips are registered, "idle" is requested, the controls update. */
  function Load(s: State, clips: seq<string>): State {
    var t := Play(s.(mixer := true, clown := true, animations := RegisterClips(s.animations, clips)), "idle");
    t.(trace := t.trace + [ControlsUpdate])
  }

  /** Loading ends on "idle" when an idle clip is registered, and otherwise keeps the previous animation. */
  lemma LoadSelectsIdle(s: State, clips: seq<string>)
    ensures Load(s, clips).mixer && Load(s, clips).clown
    ensures Load(s, clips).currentAnimation ==
      if "idle" in RegisterClips(s.animations, clips) then Some("idle") else s.currentAnimation
    ensures "idle" in RegisterClips(s.animations, clips) && s.currentAnimation != Some("idle") ==> !Load(s, clips).isWalking
  {
  }

  /** The first load selects "idle" exactly when some clip's lower-cased name is "idle". */
  lemma FirstLoad(clips: seq<string>)
    ensures Load(Init, clips).currentAnimation == Some("idle") <==>
      exists i :: 0 <= i < |clips| && Ascii.ToLower(clips[i]) == "idle"
    ensures Load(Init, clips).currentAnimation != Some("idle") ==> Load(Init, clips).currentAnimation == None
    ensures !Load(Init, clips).isWalking
  {
    RegistryFromClips(clips, "idle");
  }

  // ---------------------------------------------------------------- the observer callback

  /** One entry: a request for its mapped animation when it intersects, nothing otherwise. */
  function HandleEntry(s: State, e: Sections.Entry): State {
    if e.isIntersecting then
      match Sections.SectionToAnimation(e.id)
      case Some(name) => Play(s, name)
      case None => s
    else s
  }

  /** The observer callback: the entries handled in delivery order. */
  function Dispatch(s: State, entries: seq<Sections.Entry>): State
    decreases |entries|
  {
    if entries == [] then s else HandleEntry(Dispatch(s, entries[..|entries| - 1]), entries[|entries| - 1])
  }

  /** A batch of entries acts exactly as playAnimation applied, in order, to the mapped names of its intersecting entries. */
  lemma {:induction false} DispatchIsPlayAll(s: State, entries: seq<Sections.Entry>)
    ensures Dispatch(s, entries) == PlayAll(s, Sections.MappedNames(entries))
    decreases |entries|
  {
    if entries != [] {
      var k := |entries| - 1;
      DispatchIsPlayAll(s, entries[..k]);
      var names := Sections.MappedNames(entries[..k]);
      var e := entries[k];
      if e.isIntersecting && Sections.SectionToAnimation(e.id).Some? {
        var n := Sections.SectionToAnimation(e.id).value;
        assert (names + [n])[..|names|] == names;
      }
    }
  }

  // ---------------------------------------------------------------- one frame

  /** The events of one frame of `animate`, for the clock's delta and the model's current position. */
  function FrameEvents(s: State, delta: real, target: Vec3): seq<Event> {
    (if s.mixer then [MixerUpdate(delta)] else [])
    + (if s.isWalking && s.clown then [Follow(Camera.Follow(target))] else [])
    + [ControlsUpdate, Render]
  }

  function Animate(s: State, delta: real, target: Vec3): State {
    s.(trace := s.trace + FrameEvents(s, delta, target))
  }

  /**
   * A frame updates the mixer first (only if it exists), then follows the model (only while walking and
   * once it exists), then updates the controls, then renders; the follow places the camera at the target
   * plus (0, 1, 5) looking at the target; nothing but the trace changes.
   */
  lemma FrameOrder(s: State, delta: real, target: Vec3)
    ensures var e := FrameEvents(s, delta, target);
      |e| == 2 + (if s.mixer then 1 else 0) + (if s.isWalking && s.clown then 1 else 0) &&
      e[|e| - 2] == ControlsUpdate && e[|e| - 1] == Render &&
      ((exists i :: 0 <= i < |e| && e[i].MixerUpdate?) <==> s.mixer) &&
      (forall i :: 0 <= i < |e| && e[i].MixerUpdate? ==> i == 0 && e[i] == MixerUpdate(delta)) &&
      ((exists i :: 0 <= i < |e| && e[i].Follow?) <==> s.isWalking && s.clown) &&
      (forall i :: 0 <= i < |e| && e[i].Follow? ==>
         i == |e| - 3 && e[i].pose.position == Add(target, Camera.FollowOffset) && e[i].pose.lookAt == target) &&
      (forall i :: 0 <= i < |e| - 2 ==> e[i].MixerUpdate? || e[i].Follow?)
    ensures Animate(s, delta, target).trace == s.trace + FrameEvents(s, delta, target)
    ensures Animate(s, delta, target).(trace := s.trace) == s
  {
    var e := FrameEvents(s, delta, target);
    if s.isWalking && s.clown {
      assert e[|e| - 3].Follow?;
    }
    if s.mixer {
      assert e[0].MixerUpdate?;
    }
  }

  /**
   * `animate` as src/index.js is written: `cameraFollow` is not defined there, so while walking the call
   * throws and the controls update and the render of that frame are skipped (the next frame is already
   * scheduled).
   */
  function FrameEventsAsWritten(s: State, delta: real): seq<Event> {
    (if s.mixer then [MixerUpdate(delta)] else [])
    + (if s.isWalking && s.clown then [] else [ControlsUpdate, Render])
  }

  /** As written, no walking frame renders or moves the camera; every other frame is the intended one. */
  lemma AsWrittenWalkingFrameSkipsRender(s: State, delta: real, target: Vec3)
    ensures s.isWalking && s.clown ==>
      Render !in FrameEventsAsWritten(s, delta) && ControlsUpdate !in FrameEventsAsWritten(s, delta) &&
      Render in FrameEvents(s, delta, target) && Follow(Camera.Follow(target)) in FrameEvents(s, delta, target)
    ensures !(s.isWalking && s.clown) ==> FrameEventsAsWritten(s, delta) == FrameEvents(s, delta, target)
  {
    var e := FrameEvents(s, delta, target);
    if s.isWalking && s.clown {
      assert e[|e| - 1] == Render && e[|e| - 3] == Follow(Camera.Follow(target));
    }
  }

  // ---------------------------------------------------------------- invariants

  /** The clips left playing by a trace: a stop clears them all, a start adds one. */
  function Playing(t: seq<Event>): set<string>
    decreases |t|
  {
    if t == [] then {}
    else
      var p := Playing(t[..|t| - 1]);
      match t[|t| - 1]
      case StopAll => {}
      case Start(n) => p + {n}
      case _ => p
  }

  /** Every start in the trace comes immediately after a stop of all actions. */
  predicate StartsAfterStop(t: seq<Event>) {
    forall i :: 0 <= i < |t| && t[i].Start? ==> 0 < i && t[i - 1] == StopAll
  }

  function AsSet(o: Option<string>): set<string> {
    if o.Some? then {o.value} else {}
  }

  /**
   * The invariant kept by every operation: isWalking is derived from the current animation, the current
   * animation has a registry entry, the model and the mixer appear together, and the clips playing are
   * exactly the current one.
   */
  predicate Inv(s: State) {
    s.isWalking == (s.currentAnimation == Some("walk")) &&
    (s.currentAnimation.Some? ==> s.mixer && s.currentAnimation.value in s.animations) &&
    s.mixer == s.clown &&
    Playing(s.trace) == AsSet(s.currentAnimation) &&
    StartsAfterStop(s.trace)
  }

  lemma PlayingAppend(t: seq<Event>, e: Event)
    ensures Playing(t + [e]) ==
      if e.StopAll? then {} else if e.Start? then Playing(t) + {e.name} else Playing(t)
  {
    assert (t + [e])[..|t|] == t;
  }

  lemma {:induction false} InvInit()
    ensures Inv(Init)
  {
  }

  lemma PlayKeepsInv(s: State, name: string)
    requires Inv(s)
    ensures Inv(Play(s, name))
  {
    if Available(s, name) && s.currentAnimation != Some(name) {
      PlayingAppend(s.trace, StopAll);
      PlayingAppend(s.trace + [StopAll], Start(name));
      assert s.trace + [StopAll, Start(name)] == s.trace + [StopAll] + [Start(name)];
    }
  }

  /** Events that neither start nor stop a clip leave the playing set and the start discipline as they were. */
  lemma QuietAppend(t: seq<Event>, e: seq<Event>)
    requires forall i :: 0 <= i < |e| ==> !e[i].Start? && !e[i].StopAll?
    requires StartsAfterStop(t)
    ensures Playing(t + e) == Playing(t)
    ensures StartsAfterStop(t + e)
    decreases |e|
  {
    if e != [] {
      var k := |e| - 1;
      assert forall i :: 0 <= i < k ==> e[..k][i] == e[i];
      QuietAppend(t, e[..k]);
      assert e == e[..k] + [e[k]];
      assert t + e == (t + e[..k]) + [e[k]];
      PlayingAppend(t + e[..k], e[k]);
    } else {
      assert t + e == t;
    }
  }

  /** Creating the mixer and the model and filling the registry keeps the invariant: the registry only grows. */
  lemma {:induction false} FillKeepsInv(s: State, clips: seq<string>)
    requires Inv(s)
    ensures Inv(s.(mixer := true, clown := true, animations := RegisterClips(s.animations, clips)))
  {
    if s.currentAnimation.Some? {
      RegisterClipsKeys(s.animations, clips, s.currentAnimation.value);
    }
  }

  lemma {:induction false} LoadKeepsInv(s: State, clips: seq<string>)
    requires Inv(s)
    ensures Inv(Load(s, clips))
  {
    var s1 := s.(mixer := true, clown := true, animations := RegisterClips(s.animations, clips));
    FillKeepsInv(s, clips);
    PlayKeepsInv(s1, "idle");
    QuietAppend(Play(s1, "idle").trace, [ControlsUpdate]);
  }

  lemma DispatchKeepsInv(s: State, entries: seq<Sections.Entry>)
    requires Inv(s)
    ensures Inv(Dispatch(s, entries))
    decreases |entries|
  {
    if entries != [] {
      var k := |entries| - 1;
      DispatchKeepsInv(s, entries[..k]);
      var e := entries[k];
      if e.isIntersecting && Sections.SectionToAnimation(e.id).Some? {
        PlayKeepsInv(Dispatch(s, entries[..k]), Sections.SectionToAnimation(e.id).value);
      }
    }
  }

  lemma AnimateKeepsInv(s: State, delta: real, target: Vec3)
    requires Inv(s)
    ensures Inv(Animate(s, delta, target))
  {
    var e := FrameEvents(s, delta, target);
    assert forall i :: 0 <= i < |e| ==> !e[i].Start? && !e[i].StopAll?;
    QuietAppend(s.trace, e);
  }

  // ---------------------------------------------------------------- interleavings

  /** Everything that can happen to the page state: a request, the load completing, an observer batch, a frame. */
  datatype Op =
    | Request(name: string)
    | LoadDone(clips: seq<string>)
    | Observe(entries: seq<Sections.Entry>)
    | Frame(delta: real, target: Vec3)

  function Step(s: State, op: Op): State {
    match op
    case Request(name) => Play(s, name)
    case LoadDone(clips) => Load(s, clips)
    case Observe(entries) => Dispatch(s, entries)
    case Frame(delta, target) => Animate(s, delta, target)
  }

  function Run(s: State, ops: seq<Op>): State
    decreases |ops|
  {
    if ops == [] then s else Run(Step(s, ops[0]), ops[1..])
  }

  /** In every interleaving, with the load completing anywhere (or never), the invariant holds: at most one clip plays. */
  lemma {:induction false} RunKeepsInv(s: State, ops: seq<Op>)
    requires Inv(s)
    ensures Inv(Run(s, ops))
    ensures |Playing(Run(s, ops).trace)| <= 1
    decreases |ops|
  {
    if ops != [] {
      match ops[0] {
        case Request(name) => PlayKeepsInv(s, name);
        case LoadDone(clips) => LoadKeepsInv(s, clips);
        case Observe(entries) => DispatchKeepsInv(s, entries);
        case Frame(delta, target) => AnimateKeepsInv(s, delta, target);
      }
      RunKeepsInv(Step(s, ops[0]), ops[1..]);
    }
  }

  /** A Frame, request or observer batch before the load leaves everything but the trace alone, and starts no clip. */
  lemma StepBeforeLoad(s: State, op: Op)
    requires !s.mixer && !s.clown && !op.LoadDone?
    ensures Step(s, op).(trace := s.trace) == s
    ensures Starts(Step(s, op).trace) == Starts(s.trace)
  {
    match op
    case Request(name) =>
    case LoadDone(clips) =>
    case Observe(entries) =>
      DispatchIsPlayAll(s, entries);
      RequestsBeforeLoad(s, Sections.MappedNames(entries));
    case Frame(delta, target) =>
      var e := FrameEvents(s, delta, target);
      assert e == [ControlsUpdate, Render];
      StartsAppend(s.trace, e);
      NoStarts(e);
  }

  /** However the other operations interleave, until the load completes no animation is current and nothing walks. */
  lemma {:induction false} RunBeforeLoad(s: State, ops: seq<Op>)
    requires !s.mixer && !s.clown
    requires forall i :: 0 <= i < |ops| ==> !ops[i].LoadDone?
    ensures Run(s, ops).(trace := s.trace) == s
    ensures Starts(Run(s, ops).trace) == Starts(s.trace)
    decreases |ops|
  {
    if ops != [] {
      StepBeforeLoad(s, ops[0]);
      RunBeforeLoad(Step(s, ops[0]), ops[1..]);
    }
  }

  /** The race from the initial state: before the load, no request has any effect on the animation state. */
  lemma RaceWindow(ops: seq<Op>)
    requires forall i :: 0 <= i < |ops| ==> !ops[i].LoadDone?
    ensures Run(Init, ops).currentAnimation == None && !Run(Init, ops).isWalking
    ensures Starts(Run(Init, ops).trace) == 0
  {
    RunBeforeLoad(Init, ops);
  }

  /** With "idle" and "walk" registered, requesting idle then walk stops all actions once between the two starts and ends walking. */
  lemma IdleThenWalk(s: State)
    requires s.mixer && "idle" in s.animations && "walk" in s.animations && s.currentAnimation == None
    ensures PlayAll(s, ["idle", "walk"]).trace == s.trace + [StopAll, Start("idle"), StopAll, Start("walk")]
    ensures PlayAll(s, ["idle", "walk"]).currentAnimation == Some("walk") && PlayAll(s, ["idle", "walk"]).isWalking
  {
    assert ["idle", "walk"][..1] == ["idle"];
    assert ["idle"][..0] == [];
  }
}
