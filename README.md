# Scroll-driven clown animation controller

A model of the animation controller of a landing page that shows an animated 3D clown
(`src/index.js`). The character's clip follows the page section in view. An intersection
observer maps section ids to animation names. `playAnimation` switches clips at most once
per distinct request. The loader's completion callback fills the clip registry and asks for
`"idle"`. One frame of the render loop updates the mixer, makes the camera follow the model
while it walks, updates the orbit controls and renders, in that order.

The model keeps the script's module-level variables (`mixer`, `clown`, `animations`,
`currentAnimation`, `isWalking`) plus a trace of the calls made on the mixer, the controls
and the renderer: stop all actions, start a clip, update the mixer, camera follow, update
the controls, render.

- `wrappers.dfy`: `Option`, standing for JavaScript's `null`.
- `ascii.dfy`: ASCII lower-casing of clip names.
- `vectors.dfy`, `camera.dfy`: the follow offset `(0, 1, 5)` and the camera-follow pose.
- `sections.dfy`: the section-id `switch` and the list of names an observer batch requests.
- `animation.dfy`: the state as a value. Each operation is a function of the old state:
  `Play`, `Load`, `Dispatch`, `Animate`. `Run` is any interleaving of them, which models the
  load race. The file also holds the invariant they keep and the lemmas.
- `page.dfy`: class `ClownScene`. Its fields are the script's variables and its methods
  update them in place. Each method is proved equal to its function in `animation.dfy`.

`cameraFollow` is called at `src/index.js:135` but is not defined in that file. As written,
every frame while walking therefore throws a ReferenceError at line 135. The next frame is
already scheduled at line 132, but that frame's controls update and render are skipped. The
built bundle (`dist/main.bundle.js:1`) inlines the function: camera position = model
position + offset, and the camera looks at the model. `Camera.Follow` models that formula and
the rest of the model uses it. The as-written frame is kept beside it, under "Findings".

Some descriptions of this system mention two extra behaviours: a fall-back to `"idle"` when a
requested clip is missing, and the observer being registered only after the model exists.
`src/index.js` has neither. The model follows the code: a missing clip is a silent no-op.

## Model

| member | source | states |
|---|---|---|
| Ascii.LowerChar | src/index.js:74 | the result is never upper case; an upper-case ASCII letter becomes its lower-case form and every other character is kept |
| Ascii.ToLower | src/index.js:74 | lower-casing keeps the length and lowers each character in place |
| Ascii.ToLowerIdempotent | src/index.js:74 | a lowered clip name has no upper-case letter and is unchanged when lowered again |
| Ascii.ToLowerFixedPoint | src/index.js:74 | a name is its own lower-cased form exactly when it has no upper-case letter |
| Ascii.ExampleClipNames | src/index.js:74 | "Idle", "WALK" and "Phone" are registered as "idle", "walk" and "phone" |
| Camera.Follow | dist/main.bundle.js:1 | the camera looks at the target, and camera position minus look-at point is the offset (0, 1, 5) |
| Sections.SectionToAnimation | src/index.js:176-200 | the section-id switch, `None` for the default case; its contract is carried by SwitchMatchesTable (agreement with the table SectionTable) and SectionImage |
| Sections.SwitchMatchesTable | src/index.js:176-200 | the switch maps exactly the seven ids hero, hello, giveaway, capabilities, store, thanks, contactForm, each to its animation (idle, hello, break, pose, walk, thanks, phone) |
| Sections.SectionImage | src/index.js:176-200 | every mapped name is one of the seven animation names, and no two sections request the same animation |
| Sections.MappedNames | src/index.js:170-202 | a batch requests at most one name per entry, and every name requested is one of the seven animation names |
| Sections.MappedNamesMembers | src/index.js:170-202 | a name is requested by a batch exactly when some intersecting entry's id maps to it |
| Sections.SilentEntry | src/index.js:172-200 | a non-intersecting entry, or one whose id is unmapped (such as "footer"), requests nothing |
| Animation.Play | src/index.js:114-129 | playAnimation; its contract is carried by PlayEffect, PlayIdempotent, RepeatedRequestStartsOnce and PlayKeepsInv |
| Animation.PlayAll | src/index.js:114-129 | playAnimation applied to a sequence of names in order; see RequestsBeforeLoad, DispatchIsPlayAll and IdleThenWalk |
| Animation.PlayEffect | src/index.js:114-129 | a request changes the state exactly when a mixer exists, the name is registered and it is not already current; then the current animation becomes the name, isWalking becomes name == "walk", and the trace gains one stop-all followed by one start of that clip |
| Animation.PlayIdempotent | src/index.js:120-122 | requesting the same name twice in a row has the effect of requesting it once |
| Animation.RepeatedRequestStartsOnce | src/index.js:120-126 | two consecutive requests for the same name start exactly one clip if the first one switches, and none otherwise |
| Animation.RequestsBeforeLoad | src/index.js:115-118 | while no mixer exists, any sequence of requests leaves the whole state unchanged, with no stop or start emitted |
| Animation.RequestsFromInitBeforeLoad | src/index.js:2-5 | from the initial state, requests before loading, "walk" included, leave no current animation, isWalking false and an empty trace |
| Animation.RegisterClips | src/index.js:73-77 | the forEach that stores each clip under its lower-cased name; its contract is carried by LastWith, RegisterClipsAt, RegisterClipsKeys and RegistryFromClips |
| Animation.LastWith | src/index.js:73-77 | the index found is that of the last clip whose lower-cased name is the key, and none is found only when no clip lowers to the key |
| Animation.RegisterClipsAt | src/index.js:73-77 | after the fill a key is present exactly when it was before or some clip lowers to it; it then holds the last such clip, or else its old clip |
| Animation.RegisterClipsKeys | src/index.js:73-77 | the registry keys after the fill are the old keys together with the lower-cased clip names |
| Animation.RegistryFromClips | src/index.js:73-77 | starting from an empty registry, every key is the lower-cased name of some clip and holds a clip with that lower-cased name |
| Animation.FillKeepsInv | src/index.js:72-77 | creating the mixer and the model and filling the registry keeps the controller invariant |
| Animation.Load | src/index.js:72-83 | the loader's completion callback; its contract is carried by LoadSelectsIdle, FirstLoad and LoadKeepsInv |
| Animation.LoadSelectsIdle | src/index.js:72-82 | after the load callback the mixer and the model exist; the current animation is "idle" if an idle clip is registered and is otherwise unchanged; switching to idle clears isWalking |
| Animation.FirstLoad | src/index.js:72-79 | the first load makes "idle" current exactly when some clip's lower-cased name is "idle"; otherwise nothing is current; the clown is not walking afterwards |
| Animation.HandleEntry | src/index.js:170-201 | one observer entry: a request for its mapped name when it intersects; covered through DispatchIsPlayAll and Sections.SilentEntry |
| Animation.Dispatch | src/index.js:169-202 | the observer callback, entries in delivery order; its contract is carried by DispatchIsPlayAll and DispatchKeepsInv |
| Animation.DispatchIsPlayAll | src/index.js:169-202 | an observer batch acts exactly as playAnimation applied in delivery order to the mapped names of its intersecting entries |
| Animation.FrameEvents | src/index.js:131-138 | the calls of one frame of animate; its contract is carried by FrameOrder |
| Animation.Animate | src/index.js:131-138 | one frame: only the trace changes; see FrameOrder and AnimateKeepsInv |
| Animation.FrameOrder | src/index.js:131-138 | a frame has 2 + (mixer ? 1 : 0) + (walking and model ? 1 : 0) events; a mixer update, with the clock's delta, exists exactly when the mixer exists and is then the first event; then a camera follow, exactly when walking and the model exists, placing the camera at target + (0, 1, 5) looking at the target; then a controls update and finally a render; only the trace changes |
| Animation.FrameEventsAsWritten | src/index.js:131-138 | the frame as the file is written, where the undefined cameraFollow throws while walking; see AsWrittenWalkingFrameSkipsRender |
| Animation.AsWrittenWalkingFrameSkipsRender | src/index.js:135-137 | as written, a walking frame with the model loaded has neither a controls update nor a render, where the intended frame has both and the follow; every other frame equals the intended one |
| Animation.Playing | src/index.js:124-126 | the clips a trace leaves playing (stopAllAction clears, play adds); kept equal to the current clip by the KeepsInv lemmas |
| Animation.Inv | src/index.js:114-129 | the controller invariant; established by InvInit and kept by PlayKeepsInv, LoadKeepsInv, DispatchKeepsInv, AnimateKeepsInv and RunKeepsInv |
| Animation.InvInit | src/index.js:2-5 | the initial state satisfies the controller invariant |
| Animation.PlayKeepsInv | src/index.js:124-127 | a request keeps the controller invariant: isWalking is current == "walk", the current clip is registered, and exactly the current clip is playing with every start right after a stop-all |
| Animation.LoadKeepsInv | src/index.js:72-82 | the load callback keeps the controller invariant |
| Animation.DispatchKeepsInv | src/index.js:169-202 | an observer batch keeps the controller invariant |
| Animation.AnimateKeepsInv | src/index.js:131-138 | a frame keeps the controller invariant |
| Animation.RunKeepsInv | src/index.js:114-138 | every interleaving of requests, observer batches, frames and the load keeps the invariant, and the trace leaves at most one clip playing |
| Animation.Step | src/index.js:56-207 | one of the four things that can happen to the page state; see StepBeforeLoad and RunKeepsInv |
| Animation.Run | src/index.js:56-207 | any interleaving of requests, observer batches, frames and the load callback; see RunKeepsInv, RunBeforeLoad and RaceWindow |
| Animation.StepBeforeLoad | src/index.js:115-118 | before the load, a request, an observer batch or a frame changes nothing but the trace and starts no clip |
| Animation.RunBeforeLoad | src/index.js:115-118 | before the load, any interleaving of the other operations changes nothing but the trace and starts no clip |
| Animation.RaceWindow | src/index.js:2-5 | from the initial state, until the load completes, no animation is current, isWalking is false and no clip has started |
| Animation.IdleThenWalk | src/index.js:124-127 | with a mixer, idle and walk registered and no animation current, requesting idle then walk gives stop, start idle, stop, start walk, and ends current == "walk" and walking |
| Page.ClownScene.constructor | src/index.js:2-5 | the object starts with no mixer, no model, an empty registry, no current animation, isWalking false and an empty trace |
| Page.ClownScene.PlayAnimation | src/index.js:114-129 | the fields become exactly the state Animation.Play gives from the old ones, and the invariant holds |
| Page.ClownScene.LoadComplete | src/index.js:72-83 | the loop fills the registry one clip at a time, then idle is requested and the controls update; the fields become Animation.Load of the old state |
| Page.ClownScene.OnIntersections | src/index.js:169-203 | handling the entries one by one in delivery order gives Animation.Dispatch of the old state |
| Page.ClownScene.AnimateFrame | src/index.js:131-138 | one frame appends exactly the events of Animation.FrameEvents and changes nothing else |

## Left out

- Scene, renderer, camera, lights, floor and materials (`src/index.js:7-48`, `85-112`): declarative configuration of the rendering library.
- GLTF/DRACO loading and mesh traversal (`src/index.js:50-70`): network I/O and a foreign library. Only the completion callback's effect is modelled. The asset's clips are its parameter, given in order by name.
- `clown.position.set` and `scale.set` (`src/index.js:58-59`), `scene.add(clown)` and `controls.target.set` (`src/index.js:80-81`): scene-graph configuration. The model's position each frame is a parameter of the frame step because the rendering engine owns it.
- `requestAnimationFrame` self-scheduling: one frame is modelled, not the endless loop.
- `clock.getDelta`: the delta is a parameter. `mixer.update` internals and OrbitControls damping are foreign float numerics, recorded only as opaque events. The camera's state after a controls update is not modelled.
- `onWindowResize` (`src/index.js:140-154`): DOM reads and a float aspect ratio.
- DOM queries and observer thresholds (`src/index.js:159-168`, `205-207`): only the delivered entries are modelled.
- `console.log` output.
- Ascii.ToLower: `toLowerCase` is full Unicode lower-casing; only ASCII letters are lowered here.
- Camera.Follow: positions are exact reals, not IEEE doubles, so float rounding in the addition is not modelled.
- Animation.Load: a second run of the callback would create a new mixer (line 72). The model does not track which mixer object an action belongs to, only the merged registry. After such a reload with "idle" current, the model still counts idle as playing. In the source the new mixer plays nothing, and the old mixer's action is no longer advanced. So Playing and RunKeepsInv describe what the source plays only for runs with at most one load. The script registers the callback once (src/index.js:56), so a second load does not arise.
- The registry is a map. The JavaScript object's inherited keys (`animations["constructor"]` is truthy) are not modelled. The names the script requests are all constants, so none of them reaches such a key.

## Findings

| source | as written | input that shows it | evidently intended | confidence | as-written member | corrected member |
|---|---|---|---|---|---|---|
| src/index.js:135 | `cameraFollow(clown)` is called but no `cameraFollow` is defined in the file, so the call throws and `controls.update()` and `render` (lines 136-137) are skipped | any frame after the load while `isWalking` is true, e.g. once the `store` section has come into view | the camera is placed at the model + (0, 1, 5) looking at it, then the controls update and the frame renders, as the built bundle does | medium: not executed; a global `cameraFollow` from another script on the page would hide it | Animation.AsWrittenWalkingFrameSkipsRender | Animation.FrameOrder |
