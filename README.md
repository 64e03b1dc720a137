# Ray tracer scheduling and missile-defence game state, modelled in Dafny

This project models the discrete, state-changing logic of two small
OpenGL programs. Everything geometric, numeric or random in them is an
oracle the model is handed.

- **a3 (ray tracer).** The files model these parts:
  - the progressive render scheduler `Scene::renderRT`: a cursor that walks
    the W×H image column by column, writes one pixel per call and stops
    after the last;
  - the nearest-hit resolver `Scene::findFirstObjectInt`, with its log of
    debug rays;
  - the control skeleton of `Scene::raytrace`: depth limit, miss policy,
    glossy reflection, point lights, area-light samples and the refraction
    blend;
  - the guards of `Scene::calcIout`;
  - the sample weighting and flag reset in `Scene::pixelColour`;
  - the nested activation stack of `GPUProgram`.
- **a1 (missile defence).** The `Silo` and `Missile` classes, and the
  `State` operations `setupWorld`, `fireMissile` and `updateState`. The last
  one retires arrived missiles into explosions, lets explosions destroy
  cities, silos and incoming missiles, drops full-size explosions, reports
  the end of the game, and moves everything.

Modules, one per file:

- `Linalg`: colours and vectors as triples of reals.
- `Shading`: `calcIout`.
- `Resolver`: the pure scan behind `findFirstObjectInt`.
- `Scenes`: the `Scene` class, with the ray log, `raytrace` and `pixelColour`.
- `Render`: the `RenderScheduler` class.
- `GpuPrograms`: the activation stack.
- `Buildings`, `Silos`, `Missiles`: the a1 entities.
- `Removal`: the two ways `updateState` removes from a sequence while
  iterating over it.
- `Game`: the `State` class.
- `Wrappers`: `Option`.

In `updateState`, the hit-city loop (`a1/state.cpp:99-102`) and the
chain-reaction loop (`a1/state.cpp:120-126`) remove element `k` without
stepping the index back. So the element that slides into position `k` is
never examined. The model keeps that behaviour (`Removal.SkipRemove`). It
proves only what holds for it:

- removed elements were hit;
- unexamined survivors are accounted for;
- nothing else is lost.

It does not prove that every hit element goes. The arrival loops
(`a1/state.cpp:74-90`) and the explosion-retirement step (`a1/state.cpp:127-130`)
do step back, and the model proves that their filtering is exact.

## Model

| member | source | states |
|---|---|---|
| Render.RenderScheduler.constructor | a3/scene.cpp:571-572 | before the first restart, a scheduler for a W×H window is stopped, with no image and no refreshes |
| Render.RenderScheduler.ResetCursor | a3/scene.cpp:605-616 | a restart puts the cursor at (0,0), clears `stop`, sets the refresh threshold to 0.05, drops the image and resets progress to 0, while keeping the scheduler invariant |
| Render.RenderScheduler.AllocateImage | a3/scene.cpp:621-625 | a missing image is replaced by a fresh W·H buffer whose every entry is transparent (alpha 0); cursor, stop flag and progress are unchanged |
| Render.RenderScheduler.Tick | a3/scene.cpp:627-657 | while stopped, a call writes nothing and keeps the cursor and the refresh mark. Otherwise it writes exactly one entry, at `nextx + nexty*W`: that entry was pending (alpha 0) and becomes the opaque pixel colour, and no other entry changes. The cursor advances by `Advance`, progress grows by one, and `stop` is set exactly when all W·H pixels are done. A tick that finishes a column with the done fraction at or past `nextDot` refreshes once and moves `nextDot` on by 0.05; finishing the image refreshes once more; no other tick refreshes or moves the mark |
| Render.RenderScheduler.StepCursor | a3/scene.cpp:638-657 | the cursor moves as `Advance` says (y increments, wraps to 0 and increments x; past the last column x returns to 0 and `stop` is set). The refresh count grows by one when the finished column brings the done fraction `(x+1)/W` to at least `nextDot`, which then grows by 0.05, and by one more when the image is finished; otherwise neither changes |
| Render.RenderScheduler.StartImage | a3/scene.cpp:621-657 | with no buffer, a fresh transparent one is made; a stopped scheduler then writes nothing, stays at (0,0) and keeps its refresh count and mark; a running one writes the opaque colour of pixel (0,0), advances the cursor, leaving every other entry transparent, and refreshes as a tick at (0,0) does |
| Render.RenderScheduler.RenderRT | a3/scene.cpp:569-657 | after any call the buffer exists and the invariant holds. After a restart exactly pixel (0,0) is written (opaque), every other entry is still transparent, and the mark restarts at 0.05 before that tick's refresh rule applies. Without a restart an existing buffer is kept; a stopped scheduler moves nothing, writes nothing and refreshes nothing; a running one turns exactly the cursor's entry opaque (on a fresh transparent buffer when there was none), advances the cursor by `Advance`, counts one more pixel and refreshes as `Tick` says |
| Render.Advance | a3/scene.cpp:638-657 | a stopped cursor stays put; a running cursor on the grid stays on the grid, stops exactly after the last pixel (W−1, H−1), and is then back at (0,0) |
| Render.Run | a3/scene.cpp:638-657 | ticks of a stopped scheduler change nothing, and no number of ticks takes the cursor off the grid |
| Render.RunFromRestart | a3/scene.cpp:638-657 | from a restart, after n < W·H ticks the cursor is inside the grid and not stopped, at the n-th position of the column-major order; after exactly W·H ticks it is at x = 0 and stopped |
| Render.RankInGrid | a3/scene.cpp:638-650 | a cursor inside the grid has a column-major rank in [0, W·H), and the rank is the last one exactly at the last pixel |
| Render.RankOrder | a3/scene.cpp:638-643 | moving to a later column always means a later tick |
| Render.RankInjective | a3/scene.cpp:638-643 | two cursors with the same rank are the same pixel |
| Render.IndexInGrid | a3/scene.cpp:634 | the written index `nextx + nexty*W` lies in the buffer whenever the cursor is inside the grid |
| Render.IndexInjective | a3/scene.cpp:634 | different pixels write different buffer entries |
| Render.TickPixelInBuffer | a3/scene.cpp:627-657 | each of the first W·H ticks after a restart writes an entry inside the buffer |
| Render.TicksWriteDistinctPixels | a3/scene.cpp:627-657 | two different ticks among the first W·H write different entries |
| Render.EveryPixelHasItsTick | a3/scene.cpp:627-657 | every buffer entry is written by some tick among the first W·H |
| Render.EachPixelWrittenOnce | a3/scene.cpp:627-657 | from a restart, the W·H ticks write the W·H entries exactly once each (in range, injective, onto) |
| Render.ClearedMatches | a3/scene.cpp:621-625 | a cleared buffer is in the "nothing rendered yet" state, with every pixel pending |
| Render.AdvanceStep | a3/scene.cpp:638-657 | one cursor step from a pixel in the grid either stops, exactly at the last pixel and back at (0,0), or lands on the pixel whose rank is one higher |
| Render.WriteCursorPixel | a3/scene.cpp:634 | writing the opaque colour at the cursor's entry turns an image with `progress` pixels done into one with `progress + 1` done, and the entry was pending before |
| Resolver.Examined | a3/scene.cpp:58-62 | only the originating object can be skipped; a mesh never is, and any other originating object always is |
| Resolver.PartArg | a3/scene.cpp:69 | `rayInt` is given part index −1 for every object except the originating one, which gets the originating part |
| Resolver.ScanTo | a3/scene.cpp:52-83 | a hit held after looking at objects 0..n−1 names one of those objects, and one that was examined |
| Resolver.Scan | a3/scene.cpp:52-83 | an empty scene gives no hit; a hit names an examined object of the scene |
| Resolver.ScanHitIff | a3/scene.cpp:52-83 | `hit` is true iff some object that was examined (any mesh, or any other object than the originating one) reported a hit under the running bound |
| Resolver.ScanKeepsLastAccepted | a3/scene.cpp:56-83 | the returned intersection is the last accepted candidate: later candidates were all rejected, and the output fields are the ones that candidate's `rayInt` reported, with its object index |
| Resolver.NeverSelfUnlessMesh | a3/scene.cpp:62 | the originating object is returned only when it is a mesh |
| Resolver.ScanIsNearest | a3/scene.cpp:54-79 | when every object honours the bound it is given, the returned `t` is no larger than that of any accepted candidate, and the bound never exceeds MAXFLOAT |
| Scenes.Scene.constructor | a3/scene.cpp:179-182 | a scene whose materials all have glossiness in [0,1] (the program exits otherwise) starts with an empty, paired ray log and not storing rays |
| Scenes.Scene.RayColour | a3/scene.cpp:87-100 | a logged ray is gold exactly when it is a shadow ray, cyan exactly when it is another ray that hits, and grey exactly when it is another ray that misses |
| Scenes.Scene.RayEnd | a3/scene.cpp:85-101 | the second logged point is the hit point on a hit; on a miss it is the light's position for a shadow ray and `rayStart + 2·sceneScale·rayDir` otherwise |
| Scenes.Scene.FindFirstObjectInt | a3/scene.cpp:45-105 | the loop returns the scan result; when storing rays it appends exactly two points and one colour (gold for shadow rays, cyan for hits, grey for misses), and otherwise the log is unchanged |
| Scenes.Scene.StoredArrows | a3/scene.cpp:779-784 | for a paired log (two points per colour), arrow k runs from point 2k+1 in direction point 2k − point 2k+1 with colour k, and there is one arrow per colour |
| Scenes.Scene.Raytrace | a3/scene.cpp:113-317 | the call terminates (measure `maxDepth − depth`). It returns black past the depth limit, without logging; on a miss it returns the background colour at depth 1 and black deeper; the ray log only grows and keeps its pairing. In a scene of non-negative materials, lights and textures the colour is non-negative |
| Scenes.Scene.ShadeHit | a3/scene.cpp:156-316 | shading a hit keeps the ray log growing and paired, and in a non-negative scene gives a non-negative colour |
| Scenes.Scene.Glossy | a3/scene.cpp:183-226 | a mirror (g = 1) or a single glossy iteration adds the Phong term of the one reflected ray; 0 < g < 1 with several iterations adds 1/glossyIterations times the sum of the Phong terms of exactly glossyIterations cone rays; g ≤ 0 otherwise adds nothing; a non-negative colour stays non-negative |
| Scenes.Scene.GlossySamples | a3/scene.cpp:207-222 | the cone loop casts exactly glossyIterations rays and accumulates the sum of their Phong terms, non-negative in a non-negative scene |
| Scenes.Scene.GlossySumConstant | a3/scene.cpp:207-222 | n cone rays that all bring back the same colour sum to n times the term of that colour |
| Scenes.Scene.GlossyAverageOfEqualSamples | a3/scene.cpp:207-225 | averaging n equal cone samples gives exactly the term of a single mirror ray, so the glossy branch agrees with the mirror branch when every sample sees the same colour |
| Scenes.Scene.PointLightTerm | a3/scene.cpp:230-254 | a light contributes only when it is in front of the surface (N·L > 0) and not occluded before it; it then contributes `calcIout` of its colour along the normalised L |
| Scenes.Scene.PointLightSample | a3/scene.cpp:231-253 | one pass of the light loop yields exactly that light's term, logging its shadow ray |
| Scenes.Scene.PointLights | a3/scene.cpp:230-254 | the loop adds exactly the per-light contributions of every light in order, and keeps the colour non-negative |
| Scenes.Scene.PointLightsAllDark | a3/scene.cpp:230-254 | when every light is behind the surface or occluded, the light loop leaves the colour unchanged |
| Scenes.Scene.PointLightsNonNeg | a3/scene.cpp:230-254 | the sum of non-negative light contributions stays non-negative |
| Scenes.Scene.PointLightTermNonNeg | a3/scene.cpp:249-252 | each light's contribution is non-negative in a non-negative scene |
| Scenes.Scene.AreaSampleTerm | a3/scene.cpp:270-293 | an area-light sample contributes only when its point is in front of the surface and the shadow ray's first hit is the emitting triangle itself |
| Scenes.Scene.AreaSampleTermNonNeg | a3/scene.cpp:290-293 | each area-light sample contributes a non-negative colour in a non-negative scene |
| Scenes.Scene.AreaSamplesAllDark | a3/scene.cpp:258-297 | when no sample's shadow ray first reaches its own emitter, the area lights add nothing |
| Scenes.Scene.SoftShadowSample | a3/scene.cpp:264-293 | one soft-shadow sample draws barycentric (a, b) with a, b ≥ 0 and a + b ≤ 1 and contributes exactly that sample's term, non-negative in a non-negative scene |
| Scenes.Scene.AreaLights | a3/scene.cpp:258-297 | the result is the colour plus the contributions of its samples, and stays non-negative. The samples are exactly 50 per emitting triangle other than the originating object, emitter by emitter in object order (`EmittersBelow`, `ShadowRayTargets`), and each is a barycentric point of its emitter |
| Scenes.Scene.AreaLight | a3/scene.cpp:258-295 | one object of the area-light loop adds 50 samples of itself when it is an emitting triangle other than the originating object, and none otherwise; the sum grows by their contributions and stays non-negative |
| Scenes.Scene.EmittersBelowSpec | a3/scene.cpp:258-262 | the emitters the area-light loop visits below index n are exactly the triangles with positive emission other than the originating object, each once, in increasing index order |
| Scenes.ShadowRayTargetsSpec | a3/scene.cpp:262-265 | the sample list aims 50 rays at each listed emitter and at no other triangle |
| Scenes.Scene.SoftShadowRays | a3/scene.cpp:262-295 | one emitter's soft-shadow rays keep the earlier samples and append exactly 50 samples of that emitter, each a barycentric point (a, b ≥ 0, a + b ≤ 1); the sum grows by their contributions and stays non-negative |
| Scenes.Scene.LightAndTransmit | a3/scene.cpp:228-316 | the colour after the point lights and then the area-light samples is kept when nothing is seen through the surface, and otherwise blended as opacity parts of it and 1 − opacity of the refracted colour; the area-light samples are 50 per emitting triangle in object order; the ray log grows and stays paired, and the result is non-negative |
| Scenes.Scene.Transmit | a3/scene.cpp:304-316 | an opaque surface (opacity ≥ 1) or total internal reflection keeps the colour; otherwise the result is opacity·Iout + (1 − opacity)·(refracted colour); non-negative colours stay non-negative |
| Scenes.Scene.HitFacts | a3/scene.cpp:156-164 | a hit names an object in the scene, and that object's material is non-negative in a non-negative scene |
| Scenes.Scene.SurfaceNonNeg | a3/scene.cpp:164-175 | the surface's diffuse colour and its emitted plus ambient colour are non-negative |
| Scenes.Scene.PixelColour | a3/scene.cpp:395-448 | the result is the average of n×n samples, each weighted 1/n² (black when n ≤ 0), and storing rays is switched off afterwards; the result is non-negative in a non-negative scene |
| Scenes.Scene.SampleRow | a3/scene.cpp:421-431 | one inner loop adds n more samples, each with the same weight |
| Scenes.WeightedSum | a3/scene.cpp:417-430 | with weight zero the samples contribute nothing |
| Scenes.WeightedSumConstant | a3/scene.cpp:418-430 | k samples of the same colour c, each weighted w, sum to k·w·c |
| Scenes.UniformSamplesGiveTheirColour | a3/scene.cpp:418-430 | the 1/n²-weighted average of samples that all have the same colour is that colour |
| Scenes.WeightedSumNonNeg | a3/scene.cpp:430 | the non-negatively weighted sum of non-negative samples is non-negative |
| Shading.Diffuse | a3/scene.cpp:379 | light grazing the surface (L·N = 0) gives no diffuse light |
| Shading.Specular | a3/scene.cpp:383-386 | behind the reflection lobe (R·E < 0) there is no highlight |
| Shading.CalcIout | a3/scene.cpp:367-389 | black when the light is behind the surface (N·L ≤ 0); otherwise the componentwise Ks·Is + Kd·Id, where the specular part drops out when the viewer is outside the lobe (R·E < 0) and the diffuse part stays |
| Shading.CalcIoutNonNeg | a3/scene.cpp:374-388 | non-negative materials and light (and a non-negative `pow`) give a non-negative result |
| Shading.CalcIoutLinear | a3/scene.cpp:379-388 | the result is linear in the incoming light: scaling `In` by k scales the result by k, as the soft-shadow weighting relies on |
| Shading.WeightScaled | a3/scene.cpp:379-388 | scaling the light before weighting by a material and a factor equals scaling after |
| GpuPrograms.TopOrZero | a3/gpuProgram.h:70-73 | the program to use after a pop: the new top, or 0 on an empty stack |
| GpuPrograms.GlContext.constructor | a3/gpuProgram.h:18 | the shared stack starts empty, with program 0 in use |
| GpuPrograms.SignedOf | a3/gpuProgram.h:59-61 | the `int` read back from an `unsigned int` is the two's-complement value: in range, congruent mod 2³², and the same number below 2³¹ |
| GpuPrograms.UnsignedOf | a3/gpuProgram.h:59-61 | converting back agrees with the signed value mod 2³² |
| GpuPrograms.GPUProgram.constructor | a3/gpuProgram.h:14 | a program records its GL name |
| GpuPrograms.GPUProgram.Id | a3/gpuProgram.h:59-61 | `id()` is a 32-bit `int` that converts back to `program_id` |
| GpuPrograms.GPUProgram.Activate | a3/gpuProgram.h:63-66 | pushes `program_id` onto the shared stack and makes it current |
| GpuPrograms.GPUProgram.Deactivate | a3/gpuProgram.h:68-74 | pops exactly the top entry; the current program becomes the new top, or 0 when the stack is empty |
| GpuPrograms.ActivateThenDeactivate | a3/gpuProgram.h:63-74 | `activate` then `deactivate` restores both the stack and the current program |
| GpuPrograms.NestedActivation | a3/gpuProgram.h:18-74 | nested activate/activate/deactivate/deactivate restores the stack and the current program |
| Buildings.IsHit | a1/buildings.h:28-30 | a point is hit exactly when its distance from the centre is at most the radius (both directions); a negative radius hits nothing |
| Silos.Silo.constructor | a1/silo.h:19-22 | a new silo stands at the given position, alive, with 15 rounds |
| Silos.Silo.Destroy | a1/silo.h:23-26 | the silo is dead with 0 rounds and cannot shoot, so a second call changes nothing |
| Silos.Silo.CanShoot | a1/silo.h:27-29 | true iff rounds are left; a valid silo that can shoot is alive |
| Silos.Silo.IsAlive | a1/silo.h:31-33 | a valid silo that is not alive cannot shoot |
| Silos.Silo.DecrMissiles | a1/silo.h:35-37 | exactly one round fewer, with no guard of its own; `alive` and the position are unchanged |
| Silos.Silo.Position | a1/silo.h:39-41 | a silo's position is its building centre, from which `fireMissile` launches |
| Silos.Silo.IsHit | a1/buildings.h:28-30 | a silo is hit exactly when the building test holds for its centre |
| Missiles.Missile.constructor | a1/missile.h:19-25 | start and current position are both `p`, and velocity, destination y and colour are recorded |
| Missiles.Missile.Move | a1/missile.h:50-52 | the current position advances by dt·velocity and nothing else changes; with dt ≥ 0 an arrived missile stays arrived |
| Missiles.Missile.Position | a1/missile.h:56-58 | a missile's position is its current position, not its start |
| Missiles.Missile.HasReachedDestination | a1/missile.h:62-69 | true iff `Reached` holds for the current position, the velocity and the destination height |
| Missiles.Reached | a1/missile.h:62-69 | at exactly the destination height a missile counts as arrived only when it moves upward |
| Missiles.ArrivalPersists | a1/missile.h:62-69 | moving forward in time never undoes an arrival, for upward and for downward missiles |
| Removal.FilterPartition | a1/state.cpp:74-90 | the survivors and the removed elements of a step-back filter together are the original elements, with nothing lost or duplicated |
| Removal.MissesAreUnflagged | a1/state.cpp:74-90 | an element survives the step-back filter iff it occurs unflagged |
| Removal.FilterStep | a1/state.cpp:74-90 | dropping the first tagged element loses at most that element from the survivors |
| Removal.SkipRemovePartition | a1/state.cpp:99-102 | the survivors and the removed elements of a skip-removal loop together are the original elements |
| Removal.SkipRemoveHitBounds | a1/state.cpp:99-102 | a skip-removal loop removes only hit elements and keeps every unhit one |
| Removal.SkipPassesOverNeighbour | a1/state.cpp:99-102 | when two adjacent elements are both hit, the second one slides into the removed slot and survives unexamined |
| Removal.DistinctAppend | a1/state.cpp:66 | appending a new element keeps a sequence free of repeats |
| Removal.RemoveWithStepBack | a1/state.cpp:74-90 | a loop that removes element i and then steps i back keeps exactly the unflagged elements in order, and removes exactly the flagged ones in order |
| Removal.RemoveWithoutStepBack | a1/state.cpp:99-102 | a loop that removes without stepping back computes `SkipRemove`: hit neighbours are skipped |
| Game.Blasts | a1/state.cpp:78-87 | one explosion per missile, at its current position, with the given colour |
| Game.ArrivalTags | a1/state.cpp:75-84 | each missile is flagged exactly when it has reached its destination, in order |
| Game.BlastTags | a1/state.cpp:121 | each incoming missile is flagged exactly when it lies within the explosion's radius |
| Game.CityTags | a1/state.cpp:100 | each city is flagged exactly when `isHit` says the explosion reaches it |
| Game.ArrivalTagsAt | a1/state.cpp:74-90 | tagging arrivals by recorded positions keeps the missiles themselves, in order |
| Game.ArrivalTagsAtSpec | a1/state.cpp:74-90 | each missile is flagged exactly when it has reached its destination at its recorded position |
| Game.BlastTagsAt | a1/state.cpp:120-121 | tagging by an explosion keeps the incoming missiles themselves, in order |
| Game.BlastTagsAtSpec | a1/state.cpp:120-121 | each incoming missile is flagged exactly when its recorded position lies within the explosion's radius |
| Game.BlastsAt | a1/state.cpp:78-123 | there is one explosion per missile |
| Game.BlastsAtSpec | a1/state.cpp:78-123 | explosion k is a new circle at missile k's recorded position, in the given colour |
| Game.ArrivalTagsNow | a1/state.cpp:74-90 | while the missiles stand at their recorded positions, tagging by those positions is tagging by `hasReachedDestination` |
| Game.BlastTagsNow | a1/state.cpp:120-121 | while the missiles stand at their recorded positions, the explosion tags by those positions are the ones the loop computes |
| Game.BlastsNow | a1/state.cpp:78-123 | while the missiles stand at their recorded positions, the explosions built from those positions are the ones the loops append |
| Game.BelowMaximumExtend | a1/state.cpp:127-130 | an explosion below its maximum radius may join the kept prefix |
| Game.HitByAnyExtend | a1/state.cpp:94-117 | a silo is reached by some explosion of a list extended by one iff the shorter list or the new explosion reaches it |
| Game.CascadeStep | a1/state.cpp:97-126 | one more explosion removes, with the skip, the cities and incoming missiles it reaches from what the earlier ones left, and appends one red explosion per removed missile |
| Game.VisitStep | a1/state.cpp:94-126 | applying the loop body for the next explosion to the cascade so far gives the cascade over one more explosion |
| Game.UnexpiredSnoc | a1/state.cpp:127-130 | visiting one more explosion keeps it exactly when it is below its maximum radius, after the ones kept before |
| Game.WorklistStep | a1/state.cpp:94-131 | after one pass, the explosions before the index are the kept ones among those visited, and the visited ones followed by the rest of the list are the original explosions plus every chain explosion appended so far |
| Game.DistinctWithNew | a1/state.cpp:66 | a freshly built missile keeps the two containers free of repeats |
| Game.SurvivorsNotArrived | a1/state.cpp:74-90 | no missile the arrival filter keeps has reached its destination at its recorded position |
| Game.CascadeAddsNoMissile | a1/state.cpp:74-126 | the arrival filter and the explosion cascade never introduce an incoming missile that was not there before |
| Game.SortArrivals | a1/state.cpp:74-90 | an arrival loop keeps exactly the missiles that have not arrived, in order, and produces one explosion per arrived missile at its position, in order; the containers stay free of repeats |
| Game.SortBlasted | a1/state.cpp:120-126 | the chain loop keeps exactly the missiles the skip-removal keeps and produces one red explosion per removed missile at its position, so the two together number the missiles |
| Game.DistinctOfParts | a1/state.cpp:74-126 | shrinking either container keeps them free of repeats |
| Game.MoveAll | a1/state.cpp:150-154 | every missile in a repeat-free sequence moves by dt·velocity |
| Game.State.constructor | a1/state.cpp:188-193 | a world starts empty at time 0 |
| Game.State.SetupWorld | a1/state.cpp:188-225 | time 0, flight time 6; exactly three fresh silos (alive, 15 rounds) appended at x = 0.1, 0.5, 0.9, and exactly six cities at 0.2, 0.3, 0.4, 0.6, 0.7, 0.8 |
| Game.State.AddSilo | a1/state.cpp:210-212 | one fresh silo at the given position, alive with 15 rounds, joins the end of the row; the other containers and the clock are unchanged and the world stays valid |
| Game.State.FireMissile | a1/state.cpp:165-181 | when the silo can shoot, its rounds drop by one and exactly one fresh outgoing missile is appended: from the silo, at speed 0.3 towards (x,y), aimed at height y. Otherwise nothing changes. Cities, incoming missiles, explosions, the clock and the incoming flight time never change |
| Game.State.SpawnIncoming | a1/state.cpp:64-70 | at most one incoming missile is appended, exactly when the draw plus time/1000 exceeds 0.99, from (draw, top) with the drawn velocity and destination y 0 |
| Game.State.RetireArrivedIncoming | a1/state.cpp:74-81 | exactly the incoming missiles that have not arrived survive, in order; one light-red explosion per arrived missile, at its position, is appended in order; the other missiles, silos, cities, the clock and the incoming flight time are unchanged |
| Game.State.RetireArrivedOutgoing | a1/state.cpp:83-90 | exactly the outgoing missiles that have not arrived survive, in order; one light-blue explosion per arrived missile, at its position, is appended in order; the other missiles, silos, cities, the clock and the incoming flight time are unchanged |
| Game.State.RetireArrived | a1/state.cpp:74-90 | both arrival loops in turn: each container keeps exactly its missiles that have not arrived, and the light-red explosions of the arrived incoming missiles, then the light-blue ones of the arrived outgoing missiles, are appended |
| Game.State.ProcessExplosions | a1/state.cpp:94-131 | with `visited` the explosions the loop looks at (the old ones followed by the chain explosions it appends, each visited only after an earlier visit produced it, which makes `visited` unique by `Game.VisitedUnique`): cities and incoming missiles are what the cascade over `visited` leaves, the explosions kept are exactly the visited ones below their maximum radius, in order, every silo reached by a visited explosion is destroyed and every other silo keeps its state; silos, outgoing missiles, the clock and the incoming flight time stay |
| Game.VisitedUnique | a1/state.cpp:94-131 | at most one explosion sequence is both the starting explosions followed by the chain it produces and visited only after being produced, so the loop's `visited` is determined by the state it starts from |
| Game.CausedExtend | a1/state.cpp:94 | the loop visits only an explosion already in the list (index below its length), so each further visit stays caused |
| Game.State.VisitNext | a1/state.cpp:94-131 | one pass keeps the loop invariant (kept prefix, cascade so far, work still to do, every visit caused by earlier ones) with the explosion just visited added, destroys exactly the silos that explosion reaches, and makes progress |
| Game.State.VisitExplosion | a1/state.cpp:97-130 | one pass: cities and incoming missiles become what the skip loops keep, the red explosions of the removed missiles are appended, and then a full-size explosion is removed with the index staying, else the index moves on; silos it reaches are destroyed, others keep their state |
| Game.State.BlastEffects | a1/state.cpp:99-126 | cities and incoming missiles become exactly what the skip loops keep, one red explosion per removed missile is appended in order, the silos the explosion reaches are destroyed and the others keep their state |
| Game.State.RetireIfFullSize | a1/state.cpp:127-130 | a full-size explosion is removed and the index stays, so its successor is visited; otherwise the index moves on |
| Game.State.RemoveHitCities | a1/state.cpp:99-102 | the cities become exactly what the skip-removal loop keeps; missiles, explosions, silos, the clock and the incoming flight time are unchanged |
| Game.State.DestroyHitSilos | a1/state.cpp:114-117 | every hit silo is destroyed (dead, 0 rounds) and every other silo is untouched |
| Game.State.ChainReaction | a1/state.cpp:120-126 | incoming missiles become what the skip-removal loop keeps, and one red explosion is appended per removed missile, in order |
| Game.State.AnySiloAlive | a1/state.cpp:133-138 | true iff some silo is alive |
| Game.State.ExpandExplosions | a1/state.cpp:156-157 | each explosion is expanded by dt in place |
| Game.State.MoveMissiles | a1/state.cpp:150-154 | every incoming and outgoing missile moves by dt·velocity |
| Game.State.MoveObjects | a1/state.cpp:150-157 | every missile advances from its recorded position by dt·velocity and every explosion is expanded by dt, in place; the containers and the silos' state are unchanged |
| Game.State.ClockAndSpawn | a1/state.cpp:54-70 | time grows by dt and at most one incoming missile, under the spawn condition, is appended; every missile's position is recorded |
| Game.State.Detonate | a1/state.cpp:72-131 | outgoing missiles keep exactly those not arrived; cities and incoming missiles are what the cascade over the visited explosions leaves from the incoming missiles not arrived; the visited explosions are the old ones, then the arrival explosions, then the chain, each chain explosion visited only after it was produced; the kept explosions are the visited ones below maximum; silos reached by a visited explosion are destroyed, others keep their state; the clock and the incoming flight time are unchanged |
| Game.State.Settle | a1/state.cpp:48-141 | the clock and spawn step followed by `Detonate`, with the same account of the visited explosions (unique, caused visit by visit), and the result is true iff no city remains and no silo is alive |
| Game.State.UpdateState | a1/state.cpp:48-160 | time grows by exactly dt, the incoming flight time is unchanged, and at most one incoming missile is added, under the spawn condition. Outgoing missiles keep exactly those not arrived; cities and incoming missiles are what the explosion cascade leaves from the incoming missiles not arrived; the explosions are the visited ones (old, arrival, chain, each chain explosion visited only after it was produced) still below maximum, each expanded by dt; every remaining missile has moved from its recorded position by dt·velocity; silos are never removed, those reached are destroyed and the others keep their state; the result is true iff no city remains and no silo is alive |

## Left out

- All OpenGL presentation and I/O are left out: `renderGL`, `draw_RT_and_GL` (counted as a refresh), the image drawing, the `draw` methods, shader loading, the `set*` uniforms, the console output and debug printing.
- Numerics are oracles the model is handed as function-valued fields: `pow`, `normalize`, `length`, `acos`/`tan`, the cone vectors `perp1`/`perp2`, refraction directions, the image-plane basis and pixel ray directions, `rayInt`, `textureColour`, `pointFromBarycentricCoords`, and the geometry of `Circle` (`position`, `radius`, `maxRadius`, `expand`).
- `randIn01` is left out. In a3 its draws are arbitrary choices in [0,1] (with a + b ≤ 1 for the rejection loops); in a1 the three draws of `updateState` are parameters.
- Floating-point rounding is left out: colours, positions and times are exact reals.
- `Silos.Silo.DecrMissiles`: `roundsLeft` is an unbounded integer, so `int` wrap-around after 2³¹ decrements is not modelled.
- seq.h is not part of this model. `remove(i)` is taken to shift the later elements down in order. `remove()` on an empty `active_programs` stack is excluded by the precondition of `Deactivate`.
- state.h, `Circle`, `City` and `Building`'s distance test are not part of this model. `isHit` is a `length` oracle compared with the radius.
- `Render.RenderScheduler.RenderRT`: the window size is fixed when the scheduler is built, whereas `renderRT` reads `windowWidth`/`windowHeight` again on every call (a3/scene.cpp:621-634). A resize without a restart, which changes the buffer index and bounds, is not modelled.
- `Scenes.Scene.Glossy`: the scene invariant and the constructor require `glossyIterations >= 1`, but the source divides by `glossyIterations` (a3/scene.cpp:224) and nothing enforces that bound. A scene with no glossy iterations is not modelled.
- `Game.State.ChainReaction`: the explosions the loop appends while iterating are computed from the tags before removal. Appending does not affect which missiles the loop visits, so nothing observable is lost.
- `Game.State.UpdateState`: missiles are tagged and blasted at the positions recorded before the explosion step (`at`). Nothing in that step moves a missile, so these are their positions at the time of each test. After the final moves the contract does not restate that no remaining missile has arrived; `Game.SurvivorsNotArrived` states it for the recorded positions and `Missiles.Missile.Move` shows that moving forward keeps arrivals.
- `Scenes.Scene.Raytrace`: the `exit` on glossiness outside [0,1] becomes the class invariant's requirement that every material's `g` lies in [0,1]. The scene-file reader and writer that would enforce it are left out, and so is the `exit` for scenes without lights.
- `Scenes.Scene.Raytrace`: the colour of a whole ray, and of `ShadeHit`, is proved non-negative rather than given an exact value, because it is assembled from recursive rays through the `pow`, `normalize` and texture oracles. Its parts are exact: `Glossy`, `PointLights`, `AreaLights`, `Transmit` and `LightAndTransmit`.
- `Scenes.Scene.ShadeHit`: its colour is proved non-negative and its ray log growing and paired, not given an exact value; the exact parts are `Glossy`, `LightAndTransmit` and the members they call. The reason is the recursion through `Raytrace` named above.
- `Render.RenderScheduler.constructor`: Scene's constructor, which would establish the scheduler's state before the first `renderRT`, is not part of this model. A stopped scheduler without an image, cursor (0,0), `nextDot` 0 and no refreshes is assumed as the initial state.
- `Scenes.Scene.PixelColour`: the debug-pixel switch (`debug` flag and its messages) is console output and is left out.
- `GpuPrograms.GPUProgram.Activate`: the GL calls are reduced to the shared `current` field. `GPUProgram` objects are assumed to share one context.
