# A verified model of OBS Studio's renderers and themes

This project models the parts of OBS Studio that keep real state or transform code: the lazily
flushed Direct3D 11 device and its graphics objects, the shader constants and vertex inputs it
feeds, command ordering and the effect transpiler of the Metal renderer, the resolution of themes
and of arithmetic in theme variables, and two small loops (dma-buf modifiers, log suppression).

`dafny verify dfyconfig.toml` checks everything.  Code that updates objects is written as classes
and methods with loops; each is proved against a specification of what a caller should see.
Most protocols end in a method `Run` whose contract speaks about every sequence of calls.

## Direct3D 11 device

* `StateCache`: the memo table of immutable state objects (one generic class for the three copies
  in the source), with a driver that may reuse addresses and return equal objects.
* `PipelineSettings`: the fixed-function settings, their defaults, and the descriptors made from them.
* `RenderTargets`: render targets, depth buffers, cube sides and swap chains.  The reference is
  what the client chose, with null standing for the current chain's own object; the device caches
  resolved pointers, a dirty flag and what it bound.
* `LazyDevice`: all of these behind one device.  The main theorem, `LazyDevice.Run`: for every
  sequence of setters, target calls, draws, presents, resizes and device losses, the frames drawn
  are those of an eager device that binds on every call, and the pointers the device keeps lead to
  live objects only.  When the current target has no view the source keeps the outputs of an
  earlier draw; the frame records that as a missing value.
* `FrameSettings`: what a drawn frame shows, said of the calls alone: every part of its pipeline is
  what the last call that sets it gave, its target is the last one chosen, and the views of
  different objects, or of one object before and after a resize or a loss, are told apart.
* `ObjectList`, `DeviceRebuild`: the intrusive list of graphics objects, and the two walks over it
  after a device loss.  A chroma plane comes back exactly if its luma plane is still listed.
* `ConstantLayout`, `ShaderConstants`: packing of constants into 16-byte registers, and uploading
  under per-parameter flags, with uploads that fail half way and device losses in between.
* `VertexInputs`, `VertexSlots`, `VertexBinding`: input slots, the list of sub-buffers they refer
  to, and the cache that skips rebinding, safe although addresses are reused.  A device loss does
  not reset that cache: afterwards a live pair is bound exactly if it is not the pair remembered
  from before, and `VertexBinding.LostPairIsReached` is a run in which it is that pair.
* `VertexMappings`: from the semantics written in an effect, such as `COLOR` or `TEXCOORD1`, to the
  sub-buffers and strides that are bound.

## Metal renderer

* `MetalOrdering`: one shared command buffer, committed late, beside command buffers that are
  committed at once.  Reads of a texture are queued behind all earlier renders into it, nothing
  moves across a flush, and the order of any two commands in the queue is given exactly.
* `ShaderScan`, `ShaderNeeds`, `ShaderTrace`, `ShaderTranspiler`, `HiddenArguments`: the search of
  function bodies for global variables, its closure over calls, and the parameters and arguments
  made from it.  The trace of a function is defined from the source text alone: the names it
  mentions from left to right, with the trace of each mentioned earlier function spliced in.  What
  the transpiler records is what the trace uses, in order of first use; a call of a function that is
  declared later adds nothing.  A call passes the hidden arguments in that order while the helper
  takes them in order of declaration.  The lists always are permutations of each other; they are the
  same list exactly when first use in the trace follows declaration.  `HiddenArguments.ArgumentsCanBeSwapped` shows a shader whose entry function
  calls a helper with its two textures exchanged.
* `UniformLayout`: byte offsets and texture slots in the metadata against the emitted text.  The
  offsets agree exactly when the metadata has a size for every member and no `bool` follows a
  `bool`, which takes four bytes in the metadata and one in the struct, or when there is only one
  member.  Rounding up with a mask is modelled as rounding up to a multiple; the two agree for the
  powers of two that occur, and for an alignment of 0 both give 0.

## Themes

* `ThemeGraph`: dependency lists from `extends` chains.  A theme that survives may depend on one
  that is dropped: exactly when a base theme on its chain has an ancestor that is not one.
* `Numerals`, `ThemeParser`, `ThemeMath`, `ThemeLowering`: nested `calc`, `max` and `min` become
  entries of three operands, evaluated through printed text.  `ThemeLowering.DeclarationEvaluates`
  goes from the tokens to the printed value at any depth.  Values are exact numbers.  Evaluation
  is not plain arithmetic everywhere, and the result says exactly where: a `calc` whose value is
  zero and a nested value below zero are reported as invalid, since the code tests the value with
  `isnormal` and reads printed operands by their first digit.
* `ThemeArithmetic`: what each operation prints for written whole numbers with units, from the
  tokens to the text; `ThemeCursor`: where the parser stops, and on what it fails.
* `ThemeDeclarations`: all declarations of a chain of themes in one table, where a variant may
  replace a variable and an expression may refer to a variable declared later.  Whenever the final
  table is acyclic, every expression evaluates to its own result in it, and a reference to a
  declared expression means what the expression means.
* `ThemeTermination`: evaluation with a budget of steps, on tables of any shape.  It finishes if and
  only if no cycle is reachable, and reads behind an operand list if and only if an entry with
  fewer than two operands is; on acyclic tables it is the evaluator of `ThemeMath`.  Keys may start
  with a digit, as they do when the prefix of an operating system is cut off; a reference to such
  a key is read as a number.

## Small loops

* `ModifierFilter`: in-place removal of modifiers that need external textures.
* `LogFilter`: suppression of repeated log entries; nothing is lost without being announced.

## Model

| member | source | states |
|---|---|---|
| StateCache.StateCache.Update | libobs-d3d11/d3d11-subsystem.cpp:764-788 | flushing leaves the context bound to the object described by the current settings, and adds a table entry only for settings not in the table yet |
| StateCache.StateCache.AddState | libobs-d3d11/d3d11-subsystem.cpp:680-762 | the new entry holds a live object with the described settings; the table keeps one entry per settings value |
| StateCache.StateCache.Recreate | libobs-d3d11/d3d11-rebuild.cpp:545-554 | after a device loss the table has the same settings in the same order, each with a live object of the new device, and nothing is bound |
| StateCache.StateCache.Set | libobs-d3d11/d3d11-subsystem.cpp:2342-2354 | a setter stores the value; an unraised flag still means that the bound object matches the settings |
| PipelineSettings.DescriptorsDetermineSettings | libobs-d3d11/d3d11-subsystem.cpp:680-762 | no setting is lost in a descriptor, so one object per settings value is one per descriptor |
| RenderTargets.OutputMerger.SetRenderTargetInternal | libobs-d3d11/d3d11-subsystem.cpp:1980-2007 | null resolves to the current chain's own objects, a texture that is not 2D changes nothing, and the dirty flag is raised exactly when something changes |
| RenderTargets.OutputMerger.SetCubeRenderTargetInternal | libobs-d3d11/d3d11-subsystem.cpp:2020-2050 | the same for a side of a cube texture, with the chain's own target taking side 0 |
| RenderTargets.OutputMerger.LoadSwapChain | libobs-d3d11/d3d11-subsystem.cpp:2259-2280 | switching chains keeps the target, depth buffer and side the client chose |
| RenderTargets.OutputMerger.GetRenderTarget | libobs-d3d11/d3d11-subsystem.cpp:1964-1970 | reports the target the client chose, and null for the chain's own |
| RenderTargets.OutputMerger.GetZStencilTarget | libobs-d3d11/d3d11-subsystem.cpp:1972-1978 | reports the depth buffer the client chose, and null for the chain's own |
| RenderTargets.OutputMerger.FlushOutputViews | libobs-d3d11/d3d11-subsystem.cpp:860-890 | binds the views of the chosen target and depth buffer; without a view of the target everything stays as it was |
| RenderTargets.OutputMerger.Resize | libobs-d3d11/d3d11-subsystem.cpp:1459-1484 | a resize gives the chain new views and changes no choice |
| RenderTargets.OutputMerger.DestroySwapChain | libobs-d3d11/d3d11-subsystem.cpp:2599-2605 | destroying the current chain first switches to none, so no pointer into it is left |
| RenderTargets.ChooseWellFormed | libobs-d3d11/d3d11-subsystem.cpp:1980-2050 | every call keeps the chosen target and depth buffer null or live objects of the client, and the current chain alive |
| RenderTargets.OtherObjectsKeepOutputs | libobs-d3d11/d3d11-subsystem.cpp:2599-2610 | creating and destroying other objects changes neither the current outputs nor their views |
| RenderTargets.AfterLossWellFormed | libobs-d3d11/d3d11-rebuild.cpp:528-544 | the state after a device loss is again one the device allows |
| LazyDevice.CurrentTargetsAreAlive | libobs-d3d11/d3d11-subsystem.cpp:1964-2050 | in every reachable state the target and depth buffer that the choices resolve to are null, the client's own, or belong to the live current chain |
| LazyDevice.Device.CachedTargets | libobs-d3d11/d3d11-subsystem.cpp:1964-2050 | the cached pointers of the device are null or lead to live objects of the client or of the live current chain, with none left into a destroyed chain |
| LazyDevice.ReachableWellFormed | libobs-d3d11/d3d11-subsystem.cpp:2259-2280 | the reference's invariant holds after every run |
| LazyDevice.UpdateStencilSides | libobs-d3d11/d3d11-subsystem.cpp:2459-2512 | a stencil call for one side leaves the other side alone |
| LazyDevice.Device.FlushState | libobs-d3d11/d3d11-subsystem.cpp:2217-2224 | afterwards the context has bound the states and outputs the eager device would have bound |
| LazyDevice.Device.Draw | libobs-d3d11/d3d11-subsystem.cpp:2197-2257 | a draw that gets through runs with the eager device's pipeline; one that throws in its uploads leaves a consistent device |
| LazyDevice.Device.Present | libobs-d3d11/d3d11-subsystem.cpp:2320-2340 | presenting unbinds the outputs and, on a lost device, rebuilds everything |
| LazyDevice.Device.RebuildDevice | libobs-d3d11/d3d11-rebuild.cpp:528-554 | rebuilding forgets the choices, keeps the settings and leaves every flag raised |
| LazyDevice.Run | libobs-d3d11/d3d11-subsystem.cpp:2197-2257 | for every run the lazy device draws exactly the frames of the eager one and ends in its state, with at most one state object per settings value and only live objects behind its cached pointers |
| FrameSettings.FrameShowsLastSettings | libobs-d3d11/d3d11-subsystem.cpp:680-762 | in every run, each frame has the blend factors, operation and color channels, cull mode, scissor, depth and stencil settings given by the last calls that set them, or the initial ones |
| FrameSettings.SeparateFactorsAreDrawn | libobs-d3d11/d3d11-subsystem.cpp:2418-2431 | a frame behind a call with four blend factors has each of them in its own place |
| FrameSettings.FactorsAreDrawn | libobs-d3d11/d3d11-subsystem.cpp:2405-2416 | a frame behind a call with two blend factors has them for the colors and for alpha |
| FrameSettings.DrawsExactlyWhen | libobs-d3d11/d3d11-subsystem.cpp:2197-2257 | a prepared draw draws if and only if a target is chosen or a swap chain is current |
| FrameSettings.FrameShowsTarget | libobs-d3d11/d3d11-subsystem.cpp:860-890 | a frame writes to the current texture, at the chosen side, in the form asked for last where the two forms differ |
| FrameSettings.FrameShowsDepthBuffer | libobs-d3d11/d3d11-subsystem.cpp:860-890 | a frame has the view of the current depth buffer, and none if there is no depth buffer or view |
| FrameSettings.TargetIsChosen | libobs-d3d11/d3d11-subsystem.cpp:1980-2007 | a flat texture or null is taken as target with side 0, and a cube texture is refused |
| FrameSettings.CubeSideIsChosen | libobs-d3d11/d3d11-subsystem.cpp:2020-2050 | a side of a cube texture is taken as target, and anything else is refused |
| FrameSettings.TargetStays | libobs-d3d11/d3d11-subsystem.cpp:1980-2050 | the chosen target, depth buffer and side stay until the next choice or device loss |
| FrameSettings.ReachableViewsApart | libobs-d3d11/d3d11-rebuild.cpp:381-526 | in every reachable state no two objects share views, and a device loss replaces all of them |
| FrameSettings.ResizeMakesViews | libobs-d3d11/d3d11-subsystem.cpp:160-201 | a resize gives the texture and depth buffer of the current chain new views with the asked-for properties |
| ObjectList.Obj.constructor | libobs-d3d11/d3d11-subsystem.cpp:50-57 | a new object is linked in at the front, and every remembered cell still is the one that holds its object |
| ObjectList.Obj.Unlisted | libobs-d3d11/d3d11-subsystem.hpp:366 | an object without a device is not linked |
| ObjectList.Device.Destroy | libobs-d3d11/d3d11-subsystem.cpp:59-65 | destroying a listed object removes that object and keeps the order of the rest; an unlisted one leaves the list alone |
| ObjectList.BypassRemoves | libobs-d3d11/d3d11-subsystem.cpp:59-65 | two stores around an object turn a well-formed list into the well-formed list without it |
| ObjectList.PushFront | libobs-d3d11/d3d11-subsystem.cpp:50-57 | the constructor's stores turn a well-formed list into the well-formed list with the new object in front |
| ObjectList.Neighbours | libobs-d3d11/d3d11-subsystem.cpp:59-65 | the pointers of a listed object lead to its two neighbours and to nothing else in the list |
| ObjectList.Device.Walk | libobs-d3d11/d3d11-rebuild.cpp:395-441 | following the links from the head visits the listed objects once each, in order, and ends |
| ObjectList.Run | libobs-d3d11/d3d11-subsystem.cpp:50-65 | for every interleaving of construction and destruction, with unlisted objects among them, the links list the live linked objects, newest first |
| DeviceRebuild.RebuildDevice | libobs-d3d11/d3d11-rebuild.cpp:381-526 | all listed objects are released before any is made again, and each ends with the resource of the step that made it |
| DeviceRebuild.EachObjectOnce | libobs-d3d11/d3d11-rebuild.cpp:395-526 | in any list order each object is released once and then brought back once, except a chroma plane without a listed luma plane |
| DeviceRebuild.RebuiltExactlyWhen | libobs-d3d11/d3d11-rebuild.cpp:481-488 | a chroma plane is brought back if and only if its luma plane is listed; anything else always is |
| DeviceRebuild.PlanesShare | libobs-d3d11/d3d11-rebuild.cpp:117-174 | a chroma plane ends with the new resource of its luma plane |
| DeviceRebuild.OrphanedChroma | libobs-d3d11/d3d11-rebuild.cpp:481-488 | a chroma plane left alone in the list stays without a resource |
| DeviceRebuild.WalkStaysInList | libobs-d3d11/d3d11-rebuild.cpp:117-136 | the second walk touches listed objects only if and only if the chroma plane of every listed luma plane is listed |
| DeviceRebuild.DestroyedChromaIsTouched | libobs-d3d11/d3d11-rebuild.cpp:117-136 | with a luma plane alone in the list the second walk rebuilds a chroma plane that is not listed |
| DeviceRebuild.MakerIsUnique | libobs-d3d11/d3d11-rebuild.cpp:472-526 | no two steps of the second walk bring back the same object, and only a luma plane brings back another one |
| DeviceRebuild.RebuildObject | libobs-d3d11/d3d11-rebuild.cpp:473-523 | what one step makes and what it leaves alone; a duplicator that cannot start is released again |
| DeviceRebuild.ReleaseAll | libobs-d3d11/d3d11-rebuild.cpp:395-441 | the first walk releases every listed object, in list order |
| ConstantLayout.PlaceIsFirst | libobs-d3d11/d3d11-shader.cpp:133-180 | a constant goes to the first position that starts a register or keeps it inside one |
| ConstantLayout.SizeInBytes | libobs-d3d11/d3d11-shader.cpp:133-180 | a constant takes four bytes for each component of each array element, and textures and strings take none |
| ConstantLayout.PackedIsLayout | libobs-d3d11/d3d11-shader.cpp:133-180 | the packed positions are admissible and do not overlap, and end where the size says |
| ConstantLayout.PackedIsShortest | libobs-d3d11/d3d11-shader.cpp:133-180 | no other admissible layout in the same order ends earlier |
| ShaderConstants.Shader.BuildConstantBuffer | libobs-d3d11/d3d11-shader.cpp:133-180 | the loop computes the positions and the size of that layout |
| ShaderConstants.Shader.UploadParams | libobs-d3d11/d3d11-shader.cpp:343-367 | succeeds exactly when all values are set and fill the buffer, and then the GPU holds the assembled bytes |
| ShaderConstants.Shader.UpdateParam | libobs-d3d11/d3d11-shader.cpp:306-341 | appends the value at its position, clears its flag, and throws without a value |
| ShaderConstants.Shader.SetValue | libobs-d3d11/d3d11-shader.cpp:422-436 | storing a value keeps the invariant: some flag set, or the GPU buffer current, or the values not uploadable |
| ShaderConstants.Shader.Rebuild | libobs-d3d11/d3d11-rebuild.cpp:202-247 | after a device loss all values are the defaults and the invariant holds for a buffer of unknown contents |
| ShaderConstants.DeclaredValuesFill | libobs-d3d11/d3d11-shader.cpp:306-354 | values of their declared size fill the buffer exactly |
| ShaderConstants.DeclaredValuesAreUploadable | libobs-d3d11/d3d11-shader.cpp:343-367 | values of their declared size can be uploaded |
| ShaderConstants.ValueLandsAtItsPosition | libobs-d3d11/d3d11-shader.cpp:306-341 | each value lands exactly at the position the layout gave it |
| ShaderConstants.Run | libobs-d3d11/d3d11-shader.cpp:343-367 | over every run of sets, uploads that may throw, and rebuilds, each successful upload leaves the bytes of the current values |
| VertexInputs.SemanticWithIndex | libobs-d3d11/d3d11-shaderprocessor.cpp:37-48 | each of the six known names followed by an index is read as that name and index, with POSITION renamed |
| VertexInputs.SemanticAlone | libobs-d3d11/d3d11-shaderprocessor.cpp:37-48 | a known name alone has index 0 |
| VertexInputs.ShaderProcessor.SetSlot | libobs-d3d11/d3d11-shaderprocessor.cpp:76-89 | hands out the slot to the input with that semantic, if there is one, and touches no other |
| VertexInputs.ShaderProcessor.AssignSlots | libobs-d3d11/d3d11-shaderprocessor.cpp:117-126 | one pass gives every input its rank in buffer order, and stops at the first missing texture unit |
| VertexInputs.ShaderProcessor.BuildInputLayoutFromVars | libobs-d3d11/d3d11-shaderprocessor.cpp:91-127 | for any nesting of structs the layout is the flattened inputs with their final slots; it fails exactly for an unknown semantic |
| VertexSlots.GetBuffersExpected | libobs-d3d11/d3d11-shader.cpp:31-44 | the four flags and the count of the layout |
| VertexSlots.MakeBufferList | libobs-d3d11/d3d11-vertexbuffer.cpp:47-72 | fills the arrays with exactly the listed sub-buffers and returns their number |
| VertexSlots.PushBuffer | libobs-d3d11/d3d11-vertexbuffer.cpp:22-33 | appends a buffer, and skips a missing one without leaving a gap |
| VertexSlots.ListIsComplete | libobs-d3d11/d3d11-subsystem.hpp:738-749 | the list is as long as expected if and only if the vertex buffer has everything required |
| VertexSlots.SlotsAgreeExactly | libobs-d3d11/d3d11-shaderprocessor.cpp:111-126 | slots are the places of their buffers if and only if points are declared, named inputs have index 0 and texture units have no gap |
| VertexSlots.InputsReadTheirBuffers | libobs-d3d11/d3d11-vertexbuffer.cpp:47-72 | then every input reads its own sub-buffer of a vertex buffer that has them all |
| VertexSlots.UnitsExceedIndices | libobs-d3d11/d3d11-shader.cpp:41-42 | without gaps the unit count exceeds every unit index |
| VertexMappings.KnownExactly | libobs-d3d11/d3d11-shaderprocessor.cpp:21-48 | a mapping is accepted if and only if what stands in front of its first digit is one of the six known names |
| VertexMappings.AskedKey | libobs-d3d11/d3d11-shaderprocessor.cpp:21-48 | POSITION, NORMAL, COLOR, TANGENT and TEXCOORD with an index ask for the input of that kind |
| VertexMappings.SlotsAndBuffers | libobs-d3d11/d3d11-vertexbuffer.cpp:47-72 | from mapping strings in parameters of any nesting to the filled arrays: it works exactly if every mapping is known, and every input of well-chosen ones finds the points, normals, colors, tangents or texture unit it names at its slot, with that stride |
| VertexBinding.Device.LoadVertexBufferData | libobs-d3d11/d3d11-subsystem.cpp:1760-1787 | on return a live current pair has its own buffer list in the input slots if and only if it is not the pair remembered from before a device loss; a shader without a vertex buffer gets empty slots, and all other slots stay |
| VertexBinding.Device.RebuildDevice | libobs-d3d11/d3d11-rebuild.cpp:528-536 | a rebuild empties the slots and forgets the current pair, but not the remembered one |
| VertexBinding.Device.DestroyVertexBuffer | libobs-d3d11/d3d11-subsystem.cpp:2783-2788 | a destroyed buffer is not remembered as bound |
| VertexBinding.Device.DestroyVertexShader | libobs-d3d11/d3d11-shader.cpp:369-374 | a destroyed shader is not remembered as bound |
| VertexBinding.Run | libobs-d3d11/d3d11-subsystem.cpp:1760-1795 | in every run, with destruction, reuse of addresses and device losses, a binding call leaves the list of the live current pair exactly unless that pair is the one remembered from before a loss, and what every call leaves in the slots is given by what was in them before |
| VertexBinding.LostPairIsReached | libobs-d3d11/d3d11-rebuild.cpp:528-536 | a valid run in which a pair is bound, the device is lost and the same pair is loaded again, after which its list is not in the slots |
| MetalOrdering.MetalDevice.EnsureCommandBuffer | libobs-metal/MetalDevice.swift:535-543 | there is a shared command buffer afterwards, and nothing in the queue order changes |
| MetalOrdering.MetalDevice.FinishPendingCommands | libobs-metal/MetalDevice.swift:576-589 | commits the shared buffer; no texture is in flight or has pending writes afterwards |
| MetalOrdering.MetalDevice.Clear | libobs-metal/MetalDevice.swift:207-323 | an encoded clear renders into the current target, in its sRGB view if that is on and exists, and marks it; one whose encoder cannot be made leaves the target marked and issues nothing |
| MetalOrdering.MetalDevice.Draw | libobs-metal/MetalDevice.swift:349-533 | a draw always writes to the current render target in the current view and with the current depth attachment, although these are refreshed only under a flag |
| MetalOrdering.MetalDevice.CopyTexture | libobs-metal/MetalDevice.swift:602-633 | copying reads behind everything that was issued |
| MetalOrdering.MetalDevice.StageOrCopyRegion | libobs-metal/MetalDevice.swift:635-771 | a read committed at once still comes after all renders into its source |
| MetalOrdering.NoneOvertakenIsInOrder | libobs-metal/MetalDevice.swift:576-694 | if no read overtook an earlier render into its source, every read is queued behind all of them |
| MetalOrdering.InsertSchedule | libobs-metal/MetalDevice.swift:635-694 | committing a read ahead of the shared buffer is safe if nothing in that buffer renders into its source |
| MetalOrdering.InsertOrdered | libobs-metal/MetalDevice.swift:635-694 | a command goes exactly behind those that were committed before it |
| MetalOrdering.FlushIsBarrier | libobs-metal/metal-subsystem.swift:602-607 | every command issued before a flush is queued before every command issued after it |
| MetalOrdering.FlushMatters | libobs-metal/metal-subsystem.swift:602-607 | a staging copy overtakes a clear of another texture that waits in the shared buffer, unless a flush is between them |
| MetalOrdering.MetalDevice.Perform | libobs-metal/metal-subsystem.swift:602-607 | after a flush nothing is left encoded or in flight, and the queue has received all that was issued |
| MetalOrdering.MetalDevice.SetRenderTarget | libobs-metal/metal-subsystem.swift:357-381 | a non-nil render target implies the changed flag |
| MetalOrdering.MetalDevice.LoadSwapChain | libobs-metal/metal-swapchain.swift:166-255 | loading a swap chain installs its texture as target, if it has one, and keeps the invariant |
| MetalOrdering.Run | libobs-metal/MetalDevice.swift:207-771 | for every run the queue holds each issued command once, every read comes after every earlier draw or clear into its source, nothing moves across a flush, and a command overtakes an earlier one exactly if it alone is committed at once and the other one still waits |
| ShaderScan.AnalyzeFunction | libobs-metal/OBSShader.swift:674-733 | on every token stream the recursive search stops where its bracket closes or the text ends, and records what one left-to-right pass records, in the same order |
| ShaderScan.EndsAtMatchingBracket | libobs-metal/OBSShader.swift:674-733 | in balanced text that place is the first one where as many brackets were closed as opened |
| ShaderScan.VisitName | libobs-metal/OBSShader.swift:692-723 | what one name adds: the uniform flag, inherited needs, then its own texture or sampler |
| ShaderScan.StackSplit | libobs-metal/OBSShader.swift:724-730 | inside a nested bracket the outer ones wait unchanged |
| ShaderNeeds.Unique | libobs-metal/Sequence+Hashable.swift:21-24 | keeps the first of equal elements |
| ShaderNeeds.UniquesInOrderOfFirstUse | libobs-metal/Sequence+Hashable.swift:21-24 | what is kept comes in the order of first use |
| ShaderNeeds.RecordedNeedsExactly | libobs-metal/OBSShader.swift:638-661 | in any order of declaration, a function's recorded needs are exactly what it uses itself or along calls that each lead to an earlier function |
| ShaderNeeds.RecordedNeedsAreClosed | libobs-metal/OBSShader.swift:638-661 | with helpers declared first, a function's recorded needs are exactly what it uses itself or through calls |
| ShaderNeeds.UsesUnfold | libobs-metal/OBSShader.swift:697-704 | a use through calls is a direct use, or a use by a function that is mentioned |
| ShaderNeeds.UsesBackwardUnfold | libobs-metal/OBSShader.swift:697-704 | a use along calls of earlier functions is a direct use, or such a use by an earlier function that is mentioned |
| ShaderTrace.RecordedIsTrace | libobs-metal/OBSShader.swift:638-733 | in any order of declaration, the recorded textures and samplers of a function are those its trace names, in order of first use in the trace |
| ShaderTranspiler.OBSShader.AnalyzeFunctions | libobs-metal/OBSShader.swift:638-661 | the loop records the needs of every function in declaration order |
| ShaderTranspiler.OBSShader.HiddenParameters | libobs-metal/OBSShader.swift:888-934 | the entry function takes everything, at numbered slots; a helper takes what it needs, in order of declaration |
| ShaderTranspiler.EntrySlots | libobs-metal/OBSShader.swift:888-934 | the entry function has the uniform buffer at slot 30 and every texture and sampler at its number in order of declaration |
| ShaderTranspiler.UniformKinds | libobs-metal/OBSShader.swift:692-723 | a uniform is a texture exactly if it is declared as one in a fragment shader, and otherwise belongs to the uniform buffer |
| ShaderTranspiler.OBSShader.GenerateAdditionalArguments | libobs-metal/OBSShader.swift:1558-1596 | a call passes the recorded needs of the function, in order of first use |
| ShaderTranspiler.NeedsAreGlobal | libobs-metal/OBSShader.swift:692-723 | recorded textures and samplers are declared ones, each once |
| HiddenArguments.ArgumentsArePermutation | libobs-metal/OBSShader.swift:1558-1596 | in any order of declaration, the hidden arguments of a call of a helper are its hidden parameters, each exactly once, in some order |
| HiddenArguments.ArgumentsAreInScope | libobs-metal/OBSShader.swift:888-934 | every hidden argument of a call is a hidden parameter of the function that makes it, if that is the entry function or declared behind the one it calls |
| HiddenArguments.SameListExactly | libobs-metal/OBSShader.swift:1558-1596 | for a helper, in any order of declaration, arguments and parameters are the same list if and only if its trace first uses textures, and samplers, in the order of their declarations |
| HiddenArguments.FirstUsesInOrder | libobs-metal/Sequence+Hashable.swift:21-24 | variables listed by first use in a trace are in order of declaration if and only if each pair that is used is first used in that order |
| HiddenArguments.ArgumentsCanBeSwapped | libobs-metal/OBSShader.swift:1570-1576 | in a shader that can be transpiled, the entry function calls a helper that uses its second texture first with the two textures exchanged |
| UniformLayout.TranspileUniforms | libobs-metal/OBSShader.swift:738-767 | the emitted struct has the uniforms that are not textures, in order of declaration |
| UniformLayout.BuildMetadata | libobs-metal/OBSShader.swift:193-238 | the byte offsets are those of the emitted struct if and only if all members have a size in the metadata and no bool follows a bool, or there is one member only; each texture slot is the number in the entry function's parameter, and each type is the one of the declared name |
| UniformLayout.OffsetAgrees | libobs-metal/libobs+Extensions.swift:120-161 | one member lies at the next aligned offset of the Metal language unless it is a bool behind a bool |
| UniformLayout.LayoutsAgreeExactly | libobs-metal/OBSShader.swift:193-238 | the metadata's layout is the struct's if and only if all members have a size in the metadata and no bool follows a bool, or there is one member only |
| UniformLayout.UnsizedMember | libobs-metal/OBSShader.swift:203-211 | a member without a size goes to byte 0 and so does the one behind it, which the struct does only with a single member |
| UniformLayout.TwoBoolsDisagree | libobs-metal/libobs+Extensions.swift:120-161 | two bools are at bytes 0 and 4 of the metadata and at bytes 0 and 1 of the struct |
| UniformLayout.HalfIsMisplaced | libobs-metal/OBSShader.swift:1244-1295 | a half4 behind a float4 is at byte 0 of the metadata and at byte 16 of the struct |
| UniformLayout.MembersDoNotOverlap | libobs-metal/OBSShader.swift:193-238 | members laid out by the struct rule do not overlap |
| UniformLayout.BufferHoldsStruct | libobs-metal/MetalShader.swift:110-111 | the uniform buffer, rounded up to 16 bytes, holds the padded struct whose members lie at the metadata's offsets |
| ThemeGraph.ThemeStore.FindThemes | frontend/OBSApp_Themes.cpp:439-495 | terminates on every graph; a theme is kept if and only if its chain is complete, ends in a base theme and, for a base theme, has base ancestors only; a kept theme's dependencies are its chain root-first |
| ThemeGraph.ThemeStore.Walk | frontend/OBSApp_Themes.cpp:442-490 | one theme is kept exactly if it survives, and then has its dependencies and nearest base ancestor |
| ThemeGraph.FirstBaseIsNearest | frontend/OBSApp_Themes.cpp:477-479 | a theme that is not a base theme becomes a variant of its nearest base ancestor |
| ThemeGraph.DependenciesSurvive | frontend/OBSApp_Themes.cpp:439-495 | all dependencies of a survivor survive if and only if no base theme among them has an ancestor that is not one |
| ThemeGraph.SurvivorWithDroppedDependency | frontend/OBSApp_Themes.cpp:463-468 | a theme that survives although a theme it depends on is dropped |
| ThemeGraph.ChainAcyclic | frontend/OBSApp_Themes.cpp:470-475 | a complete chain never repeats a theme |
| ThemeGraph.RepeatingWalk | frontend/OBSApp_Themes.cpp:470-475 | a walk that comes back to a theme means there is no complete chain |
| ThemeGraph.PathFollowsChain | frontend/OBSApp_Themes.cpp:454-483 | the walk follows the chain, if there is one |
| Numerals.ReadPrinted | frontend/OBSApp_Themes.cpp:525-541 | printing a whole number with a suffix and reading it back is lossless |
| Numerals.ReadAppended | frontend/OBSApp_Themes.cpp:525-541 | reading splits a text exactly between its numeral and its suffix |
| Numerals.DotMoved | frontend/OBSApp_Themes.cpp:525-541 | moving the dot of a numeral k places to the right multiplies the value read by the k-th power of ten |
| Numerals.DecimalRead | frontend/OBSApp_Themes.cpp:525-541 | a decimal with a unit is read as that value and that unit |
| Numerals.SuffixByFirst | frontend/OBSApp_Themes.cpp:533-539 | what starts with neither a digit nor a dot is the suffix of the number in front of it |
| ThemeMath.ResolveVariable | frontend/OBSApp_Themes.cpp:498-517 | follows aliases to their end; fails exactly when an alias reached through an alias leads out of the table, while a missing first target reads as a default variable |
| ThemeMath.EvalMath | frontend/OBSApp_Themes.cpp:568-659 | terminates in an acyclic table, and the text is a number or the mark of an invalid expression |
| ThemeMath.ParseMathVariable | frontend/OBSApp_Themes.cpp:522-566 | an operand is a number or a size, or the exception |
| ThemeMath.PrintedOperand | frontend/OBSApp_Themes.cpp:544-558 | a printed result reads back as an operand exactly if it is not negative |
| ThemeMath.ComputeAgrees | frontend/OBSApp_Themes.cpp:607-650 | an entry computes the operation of its expression, and fails exactly on clashing suffixes, division by zero and a calc of zero |
| ThemeMath.LoweredNode | frontend/OBSApp_Themes.cpp:568-659 | an entry lowered from an expression evaluates to the expression's result at any depth, although the depth counter is restarted |
| ThemeMath.EditedFirst | frontend/OBSApp_Themes.cpp:607-617 | a reference to a number has the value the user has set, or else the declared one; a missing variable, a color or a string is no number |
| ThemeMath.DepthLimit | frontend/OBSApp_Themes.cpp:568-578 | at a depth of ten the result is the mark of an invalid expression |
| ThemeArithmetic.TimesPrints | frontend/OBSApp_Themes.cpp:629-650 | calc of m times n prints their product with the common unit, and the mark of an invalid expression for zero or clashing units |
| ThemeArithmetic.PlusPrints | frontend/OBSApp_Themes.cpp:629-650 | the same for the sum |
| ThemeArithmetic.MinusPrints | frontend/OBSApp_Themes.cpp:629-650 | the same for the difference, with a sign if it is negative |
| ThemeArithmetic.DividePrints | frontend/OBSApp_Themes.cpp:629-650 | a quotient prints the whole number that times n is m, or the format's text of the fraction that is, and division by zero is invalid |
| ThemeArithmetic.MaxPrints | frontend/OBSApp_Themes.cpp:648-652 | max prints an operand that is not less than either |
| ThemeArithmetic.MinPrints | frontend/OBSApp_Themes.cpp:648-652 | min prints an operand that is not greater than either |
| ThemeParser.ParseMath | frontend/OBSApp_Themes.cpp:207-257 | the parser's loop and recursion compute its specification, failures and the place where parsing stopped included |
| ThemeCursor.FindsFirstOutside | libobs/util/cf-parser.h:120-134 | skipping finds the first such token outside braces, if neither it nor a brace stands right behind a closing brace |
| ThemeCursor.SemicolonIsMissed | libobs/util/cf-parser.h:120-134 | a semicolon right behind a closing brace is missed, and found if whitespace is between |
| ThemeCursor.FailureStops | frontend/OBSApp_Themes.cpp:207-257 | a failing expression leaves the parser at a semicolon, at the end, or at the bracket behind an empty list, and one that succeeds at its closing bracket or a semicolon |
| ThemeCursor.PlainListParsed | frontend/OBSApp_Themes.cpp:207-257 | a list of plain tokens of any length is taken as it is, and an empty one fails |
| ThemeParser.NodeParsed | frontend/OBSApp_Themes.cpp:207-257 | a written expression is parsed into its three operands and the entries of its nested expressions |
| ThemeParser.ReferenceParsed | frontend/OBSApp_Themes.cpp:136-159 | a written variable reference is read as its name |
| ThemeLowering.DeclarationEvaluates | frontend/OBSApp_Themes.cpp:207-257 | a declared expression parses, keeps the table acyclic, and evaluates to its own result |
| ThemeLowering.ExtendedIsAcyclic | frontend/OBSApp_Themes.cpp:230-242 | the entries a declaration adds keep the variable graph acyclic |
| ThemeLowering.MeaningUnchanged | frontend/OBSApp_Themes.cpp:230-242 | variables declared before keep their values |
| ThemeDeclarations.AllDeclarationsEvaluate | frontend/OBSApp_Themes.cpp:880-890 | for any list of declarations whose final table is acyclic, every expression that is not replaced later evaluates to its own result in the final table, later variables and replacements counted as they are in the end |
| ThemeDeclarations.ParsedAsListed | frontend/OBSApp_Themes.cpp:207-257 | the parser draws the names of an expression where those before it ended and makes the variables the listing has |
| ThemeDeclarations.ReferenceMeansExpression | frontend/OBSApp_Themes.cpp:522-566 | a reference to a declared expression, by a name that does not start with a digit, means what the expression means if that is carried through its printed text, and nothing otherwise |
| ThemeDeclarations.ReferenceMeansTarget | frontend/OBSApp_Themes.cpp:498-517 | a reference to an alias means what a reference to its target means, if neither name starts with a digit |
| ThemeDeclarations.NumberIsNoReference | frontend/OBSApp_Themes.cpp:529-541 | a reference to a name that starts with a digit is read as that number, even if a variable has the name |
| ThemeDeclarations.NegativeIntermediateIsInvalid | frontend/OBSApp_Themes.cpp:525-566 | an expression worth 4 for which parsing and evaluating report an invalid expression, because a nested value is negative |
| ThemeDeclarations.ZeroIsInvalid | frontend/OBSApp_Themes.cpp:640-650 | an expression worth 0 for which parsing and evaluating report an invalid expression |
| ThemeTermination.FinishesExactlyWithoutCycle | frontend/OBSApp_Themes.cpp:498-659 | on any table, evaluation finishes within some budget if and only if no cycle of aliases and operands is reachable |
| ThemeTermination.SelfReferenceNeverFinishes | frontend/OBSApp_Themes.cpp:498-659 | an alias of itself and a calculation that uses itself have a reachable cycle, and evaluation finishes within no budget |
| ThemeTermination.PrintedIsOperand | frontend/OBSApp_Themes.cpp:544-558 | reading a printed result back is looking it up like any operand, when no key starts with a minus or a quote |
| ThemeTermination.OutOfRangeExactly | frontend/OBSApp_Themes.cpp:582-583 | evaluation reads behind the end of an operand list if and only if an entry with fewer than two operands is reachable |
| ThemeTermination.OneOperandIsOutOfRange | frontend/OBSApp_Themes.cpp:582-583 | calc of one operand parses into an entry on which evaluation reads behind the end of the list |
| ThemeTermination.SameAsUnbounded | frontend/OBSApp_Themes.cpp:522-566 | on an acyclic table a large enough budget gives what the evaluator without a budget gives |
| ModifierFilter.RemoveExternalOnly | libobs-opengl/gl-egl-common.c:383-392 | leaves the modifiers that are not external only, in order, as the prefix, returns their number, stays in bounds and ends |
| ModifierFilter.KeptAtRank | libobs-opengl/gl-egl-common.c:383-392 | every kept modifier ends at its rank among the kept ones, and nothing else is there |
| LogFilter.LogHandler.TooManyRepeatedEntries | frontend/obs-main.cpp:160-191 | when an entry is suppressed, what is remembered, and which notice is written |
| LogFilter.ContinuesExactly | frontend/obs-main.cpp:165-172 | two entries belong together exactly if their formats are the same and their character sums differ by less than 765 either way |
| LogFilter.SumOfParts | frontend/obs-main.cpp:150-157 | every character of a text counts once in its sum |
| LogFilter.Run | frontend/obs-main.cpp:160-191 | for every sequence of entries the log holds what the bursts say |
| LogFilter.SuppressionIsAnnounced | frontend/obs-main.cpp:181-184 | at every point the suppressed entries are those announced so far and those of the running burst |
| LogFilter.BurstWritesThirtyOne | frontend/obs-main.cpp:174-178 | each burst writes the smaller of its length and 31 |

## Left out

- Driver failures: creation of states and resources, mapping, resizing and presenting succeed, except the failures named above; a failed rebuild ends the program.
- Colour spaces of render targets and swap chains, viewports, clears, projection matrices and the drawing of the start-up probe for broken NV12 drivers.
- The caches of textures, samplers, index buffers and shaders of the Direct3D 11 device, and the checks for missing shaders at the start of a draw, which become an input of the call.
- Destroying the current render target or depth buffer of the client: a duty of the caller, since the source leaves a dangling pointer.
- Padding bytes that the source compares with `memcmp` along with the settings.
- The vertex data itself, and the input layout bound with a shader.
- `VertexInputs.ShaderProcessor.BuildInputLayoutFromVars`: element formats are not modelled, and structs are given as a tree rather than looked up by name.
- `ObjectList.Run`: objects are numbered as they are made; reuse of their addresses is not modelled.
- `DeviceRebuild.RebuildDevice`: what a rebuilt resource contains, the device callbacks, and what the source does to the memory of a chroma plane destroyed before its luma plane; `DeviceRebuild.WalkStaysInList` says exactly when that happens.
- Widths of machine integers: sizes, counters and character sums are unbounded.
- Metal: writes by the destination of a copy, mipmap generation, texture unmapping, the display link and its thread; which of the checks in a draw fails is an input of the call.
- `UniformLayout.BuildMetadata`: scalars, vectors and 4x4 matrices; arrays, other matrices, strings and textures outside fragment shaders are left out.
- `UniformLayout.BufferHoldsStruct`: for members the metadata has a size for; otherwise the buffer is too small already with a single member.
- Transpiling of function bodies, structs and types, and calls with a space before the parenthesis.
- `Numerals.ReadPrinted`: exponents and hexadecimal forms, which written literals and suffixes therefore must not have, and the rounding of binary floating point; how fractions are printed is a parameter.
- `ThemeMath.EvalMath`: stated for acyclic tables whose entries have two operands or more; `ThemeTermination` says exactly what happens on the others. The limit on the depth counter never takes effect because the counter is restarted.
- `ThemeMath.ResolveVariable`: stated for acyclic tables; on a cycle of aliases the source does not stop, as in `ThemeTermination.SelfReferenceNeverFinishes`.
- `ThemeMath.ParseMathVariable`: as for `ThemeMath.EvalMath`, and `ThemeTermination` covers the other tables.
- `ThemeLowering.DeclarationEvaluates`: one declaration with new names; `ThemeDeclarations.AllDeclarationsEvaluate` covers replaced variables and references to later ones.
- Reading theme files, parsing of colours and style sheets, and the order in which theme files are found.
- Locking around the log, splitting of entries into lines, and the unfiltered mode.
