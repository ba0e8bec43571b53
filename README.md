# Telegram-iOS: dust effect, chat background lookup, reaction list menu

A Dafny model of three pieces of the Telegram iOS client, with proofs about them.

- **`DustEffectLayer`** (`dust_effect.dfy`, module `DustEffect`) is the "dust" dissolve layer. It keeps a
  list of dissolving items. Each item has a phase and a lazily allocated particle buffer.
  - Every display-link tick advances each phase by the time step. An item is removed once its phase
    reaches 4.0.
  - The layer holds a display-link subscription exactly while it has items and is in a rendered hierarchy.
  - A frame update allocates and fills the particle buffers, then encodes, for each item that holds a
    buffer, one compute dispatch, then a plain quad draw followed by an instanced draw. A pass whose
    pipeline state cannot be built (for instance because the shader library did not load) encodes nothing.
  - The first successful load of the compiled shader library is cached for the whole process; a failed
    load is not stored and is tried again on the next call.
- **`chatControllerBackgroundImage`** and its asynchronous variant (`chat_background.dfy`, module
  `ChatBackground`) look up the chat background image.
  - In knockout mode, a built-in day, night or night-accent theme replaces the wallpaper with its own default.
  - A one-slot process-wide cache is keyed on the wallpaper and its blur flag.
  - On a miss, the image is loaded by wallpaper kind. A raw-file fallback is never cached, and a pattern
    wallpaper never yields an image.
- **`ReactionListContextMenuContent`** (`reaction_list.dfy`, module `ReactionList`) is the "who reacted" menu.
  - The reactions list starts with an "all" entry, and a tab bar is shown only when there are more than
    two entries.
  - The tab bar is laid out left to right.
  - The reactor list is windowed: rows exist only near the visible bounds, and a load-more request fires
    near the end of the loaded items.
  - The apparent height and the container are clamped.
  - The menu header is stacked from the top.
  - Switching tabs keeps the old tab for a slide or fade transition.
  - Relayout requests are forwarded only from the current tab.

Where the source mutates objects, the model uses classes:
- the layer and its items;
- the background image slot;
- the tab nodes, their row maps and rows;
- the menu node.

The loops that walk these objects are methods, proved against specification functions on values. These functions are:
- `Advance` for a tick;
- `Particles` for a buffer fill;
- `Dispatches` and `RenderDraws` for the encoded passes;
- `BackgroundImageCall` and `Load` for the lookup;
- `Window` for the visible rows.

The model takes the following as parameters:
- the outside world: the texture loader, the shared buffer pool, the random draws, bundle paths, the media box, and text and icon measurement;
- the animation speed factor, which is the time step `step`.

`wrappers.dfy` holds the `Option` datatype.

## Model

| member | source | states |
|---|---|---|
| DustEffect.Truncate | submodules/TelegramUI/Components/DustEffect/Sources/DustEffectLayer.swift:183-184 | `Int(_:)` of a non-negative extent truncates: the result n satisfies n <= x < n + 1 |
| DustEffect.ParticleCount | submodules/TelegramUI/Components/DustEffect/Sources/DustEffectLayer.swift:183-185 | an item less than one point wide or tall has no particles |
| DustEffect.BufferLength | submodules/TelegramUI/Components/DustEffect/Sources/DustEffectLayer.swift:185-188 | the requested length `count * 4 * (4 + 1)` bytes is exactly one 5-Float record per particle |
| DustEffect.TenByFiveRegion | submodules/TelegramUI/Components/DustEffect/Sources/DustEffectLayer.swift:183-188 | a 10 x 5 frame has 50 particles and asks for a 1000-byte buffer |
| DustEffect.ThreadgroupCount | submodules/TelegramUI/Components/DustEffect/Sources/DustEffectLayer.swift:223-224 | `(n + 32 - 1) / 32` threadgroups cover n particles, one group fewer would not, and zero particles give zero groups |
| DustEffect.RenderSize | submodules/TelegramUI/Components/DustEffect/Sources/DustEffectLayer.swift:240 | the render target is 3x the bounds, truncated in each dimension |
| DustEffect.Particles | submodules/TelegramUI/Components/DustEffect/Sources/DustEffectLayer.swift:192-202 | the fill of n particles is exactly 5n Floats |
| DustEffect.ParticleField | submodules/TelegramUI/Components/DustEffect/Sources/DustEffectLayer.swift:192-202 | field f of particle p sits at `p * 5 + f` and holds field f of that particle's record |
| DustEffect.ParticleStart | submodules/TelegramUI/Components/DustEffect/Sources/DustEffectLayer.swift:193-201 | a filled particle starts at offset (0, 0), with speed in [42, 84] and weight in [0.7, 1.5], when the draws are in their ranges |
| DustEffect.FillParticles | submodules/TelegramUI/Components/DustEffect/Sources/DustEffectLayer.swift:191-202 | the loop writes exactly the records of `Particles` into the buffer and leaves the Floats past them as they were |
| DustEffect.Advance | submodules/TelegramUI/Components/DustEffect/Sources/DustEffectLayer.swift:132-138 | a tick never grows the list, and every kept phase is below 4.0 |
| DustEffect.AdvanceBounds | submodules/TelegramUI/Components/DustEffect/Sources/DustEffectLayer.swift:132-138 | a tick never grows the list, and every survivor's phase lies in [step, 4.0) |
| DustEffect.AdvanceTagsFromInput | submodules/TelegramUI/Components/DustEffect/Sources/DustEffectLayer.swift:132-138 | a tick invents no items |
| DustEffect.AdvanceFate | submodules/TelegramUI/Components/DustEffect/Sources/DustEffectLayer.swift:132-138 | an item survives a tick, with its phase advanced by step, if and only if the advanced phase is below 4.0 |
| DustEffect.AdvanceDistinct | submodules/TelegramUI/Components/DustEffect/Sources/DustEffectLayer.swift:132-138 | a tick never duplicates an item |
| DustEffect.AdvanceAppend | submodules/TelegramUI/Components/DustEffect/Sources/DustEffectLayer.swift:132-138 | removal is local, so survivors keep their relative order |
| DustEffect.AdvanceEmpty | submodules/TelegramUI/Components/DustEffect/Sources/DustEffectLayer.swift:132-142 | the list becomes empty exactly when every advanced phase reaches 4.0 |
| DustEffect.SingleItemLifetime | submodules/TelegramUI/Components/DustEffect/Sources/DustEffectLayer.swift:133-136 | after n ticks an item added at phase 0 is alive with phase n * step while that is below 4.0, and gone afterwards |
| DustEffect.RemovedAfterFourSeconds | submodules/TelegramUI/Components/DustEffect/Sources/DustEffectLayer.swift:133-136 | at 1/60 per tick an item survives 239 ticks and is gone after 240 |
| DustEffect.TickOutcome | submodules/TelegramUI/Components/DustEffect/Sources/DustEffectLayer.swift:130-139 | after the right-to-left walk, the survivors are distinct, with phases in [step, 4.0), each input item is kept if and only if its advanced phase is below 4.0, and every buffer still fits |
| DustEffect.AdvanceAndPrune | submodules/TelegramUI/Components/DustEffect/Sources/DustEffectLayer.swift:131-139 | the in-place walk leaves the list of `Advance` on the old phases, advances every phase by step, and reports a removal if and only if the list shrank |
| DustEffect.Tick | submodules/TelegramUI/Components/DustEffect/Sources/DustEffectLayer.swift:131-139 | a tick over a valid list gives a valid list, which is `Advance` of the old one, with the survival rule per item |
| DustEffect.Item.constructor | submodules/TelegramUI/Components/DustEffect/Sources/DustEffectLayer.swift:34-48 | a new item has the frame and texture it was given, phase 0 and no buffer |
| DustEffect.DisplayLinkDriver.Add | submodules/TelegramUI/Components/DustEffect/Sources/DustEffectLayer.swift:150-156 | each subscription gets a new handle |
| DustEffect.AllocateBuffers | submodules/TelegramUI/Components/DustEffect/Sources/DustEffectLayer.swift:179-205 | existing buffers are kept; an item without one stays without one when the pool refuses; otherwise it gets a fresh buffer of `BufferLength(frame)` bytes, filled with its particle records; every buffer fits its frame afterwards |
| DustEffect.Dispatches | submodules/TelegramUI/Components/DustEffect/Sources/DustEffectLayer.swift:215-235 | the compute pass has at most one dispatch per item |
| DustEffect.RenderDraws | submodules/TelegramUI/Components/DustEffect/Sources/DustEffectLayer.swift:245-278 | the render pass has at most two draws per item, and they come in pairs |
| DustEffect.DispatchesCoverBufferedItems | submodules/TelegramUI/Components/DustEffect/Sources/DustEffectLayer.swift:215-235 | each dispatch belongs to an item that holds a buffer, every such item is dispatched, and each dispatch has enough 32-wide groups but not a whole group more |
| DustEffect.DrawsCoverBufferedItems | submodules/TelegramUI/Components/DustEffect/Sources/DustEffectLayer.swift:245-278 | the draws come in pairs of a plain 6-vertex quad and an instanced draw of the same buffered item; every buffered item gets its pair; each instanced draw has one instance per particle, and with fitting buffers it reads exactly its buffer's records |
| DustEffect.MetalLibraryCache.Get | submodules/TelegramUI/Components/DustEffect/Sources/DustEffectLayer.swift:10-29 | a stored library is returned as is; otherwise the load result is returned, and only a success is stored |
| DustEffect.LoadLibrary | submodules/TelegramUI/Components/DustEffect/Sources/DustEffectLayer.swift:16-28 | one load attempt yields a library if and only if the bundle is found, opens and compiles, and it is then the compiled one |
| DustEffect.StateBuilt | submodules/TelegramUI/Components/DustEffect/Sources/DustEffectLayer.swift:53-59 | a pipeline state, and so a pass's commands, exists only when the shader library loaded (lines 53-56 and 83-86) |
| DustEffect.DustEffectLayer.constructor | submodules/TelegramUI/Components/DustEffect/Sources/DustEffectLayer.swift:97-120 | a new layer has no items, no subscription and is not in a hierarchy |
| DustEffect.DustEffectLayer.UpdateNeedsAnimation | submodules/TelegramUI/Components/DustEffect/Sources/DustEffectLayer.swift:147-163 | the subscription is held if and only if there are items and the layer is in a hierarchy; an existing one is kept; a missing one is a new handle from the driver, and the driver is touched only then |
| DustEffect.DustEffectLayer.SetInHierarchy | submodules/TelegramUI/Components/DustEffect/Sources/DustEffectLayer.swift:108-119 | entering or leaving the hierarchy re-establishes the subscription rule, and leaving drops the subscription |
| DustEffect.DustEffectLayer.AddItem | submodules/TelegramUI/Components/DustEffect/Sources/DustEffectLayer.swift:165-170 | a loaded texture appends one fresh item at phase 0 without a buffer; a failed load changes nothing |
| DustEffect.DustEffectLayer.UpdateItems | submodules/TelegramUI/Components/DustEffect/Sources/DustEffectLayer.swift:130-145 | the items become `Advance` of the old list; each old item's phase advanced by step; an item stays if and only if its phase is below 4.0; `becameEmpty` fires if and only if a non-empty list became empty |
| DustEffect.DustEffectLayer.EncodeCompute | submodules/TelegramUI/Components/DustEffect/Sources/DustEffectLayer.swift:207-238 | the compute loop encodes exactly `Dispatches(items)` |
| DustEffect.DustEffectLayer.EncodeRender | submodules/TelegramUI/Components/DustEffect/Sources/DustEffectLayer.swift:240-279 | the render loop encodes exactly `RenderDraws(items)`: the plain draw of line 276 and the instanced draw of line 277 for each buffered item |
| DustEffect.DustEffectLayer.Update | submodules/TelegramUI/Components/DustEffect/Sources/DustEffectLayer.swift:172-280 | empty bounds do nothing; otherwise the buffers are allocated as `AllocateBuffers` states, and the frame holds the dispatches only when the compute state was built, the 3x render size, and the draws only when the render state was built; any dispatch or draw implies the shader library loaded |
| ChatBackground.BlurFlag | submodules/TelegramPresentationData/Sources/ChatControllerBackgroundNode.swift:31 | `settings?.blur ?? false` is true if and only if the wallpaper has settings with blur set |
| ChatBackground.CacheHit | submodules/TelegramPresentationData/Sources/ChatControllerBackgroundNode.swift:31 | only a cached, composed request can hit, and it then hits exactly when the asynchronous variant's test does |
| ChatBackground.EffectiveWallpaper | submodules/TelegramPresentationData/Sources/ChatControllerBackgroundNode.swift:15-28 | in knockout mode a built-in day, night or night-accent theme gives its default wallpaper; otherwise the requested one is kept |
| ChatBackground.KnockoutIdempotent | submodules/TelegramPresentationData/Sources/ChatControllerBackgroundNode.swift:15-28 | substituting twice is substituting once |
| ChatBackground.KnockoutChangesOnlyForBrightOrDarkBuiltins | submodules/TelegramPresentationData/Sources/ChatControllerBackgroundNode.swift:16-24 | a changed wallpaper implies knockout mode and a built-in day, night or night-accent theme |
| ChatBackground.HitIsWallpaperEquality | submodules/TelegramPresentationData/Sources/ChatControllerBackgroundNode.swift:31 | with a well-formed slot, a cached and composed call hits exactly when the wallpaper equals the stored one |
| ChatBackground.HitReturnsStoredImage | submodules/TelegramPresentationData/Sources/ChatControllerBackgroundNode.swift:31-32 | a hit returns the stored image, keeps the slot, and does not depend on the media box |
| ChatBackground.BackgroundImageCall | submodules/TelegramPresentationData/Sources/ChatControllerBackgroundNode.swift:14-99 | a call that changes the slot is composed, returns an image, and stores exactly that image under the substituted wallpaper's key |
| ChatBackground.SlotWrittenOnlyForComposedNonFallback | submodules/TelegramPresentationData/Sources/ChatControllerBackgroundNode.swift:94-96 | the slot changes only on a composed miss whose load produced an image without falling back, and then holds that image under the substituted key |
| ChatBackground.CallKeepsSlotValid | submodules/TelegramPresentationData/Sources/ChatControllerBackgroundNode.swift:94-96 | the stored blur flag always matches the stored wallpaper |
| ChatBackground.WrittenSlotServesRepeat | submodules/TelegramPresentationData/Sources/ChatControllerBackgroundNode.swift:31-96 | after a call writes the slot, the same request hits and returns the same image |
| ChatBackground.BlurConsultedOnlyWhenBlurredAndComposed | submodules/TelegramPresentationData/Sources/ChatControllerBackgroundNode.swift:59-92 | the blurred representation affects the load only when blur is set and the call is composed |
| ChatBackground.LoadMedia | submodules/TelegramPresentationData/Sources/ChatControllerBackgroundNode.swift:59-92 | a media load whose image is not a fallback returns the blurred representation, which is asked for only when blur is set and the call is composed |
| ChatBackground.Load | submodules/TelegramPresentationData/Sources/ChatControllerBackgroundNode.swift:34-93 | only a media wallpaper can fall back, and a pattern file yields no image |
| ChatBackground.BlurredRepresentationPreferred | submodules/TelegramPresentationData/Sources/ChatControllerBackgroundNode.swift:61-73 | when it is obtained, the blurred image is the result, and the load is not a fallback |
| ChatBackground.FallbackExactly | submodules/TelegramPresentationData/Sources/ChatControllerBackgroundNode.swift:59-92 | a load falls back if and only if a media wallpaper got no blurred image and has a completed raw file; the result is then that file decoded |
| ChatBackground.PatternYieldsNoImage | submodules/TelegramPresentationData/Sources/ChatControllerBackgroundNode.swift:75-78 | a miss on a pattern file returns no image and leaves the slot alone |
| ChatBackground.LoadOnMiss | submodules/TelegramPresentationData/Sources/ChatControllerBackgroundNode.swift:34-93 | the per-kind switch computes `Load`: the image and whether it came from the intended source |
| ChatBackground.BackgroundImageCache.constructor | submodules/TelegramPresentationData/Sources/ChatControllerBackgroundNode.swift:12 | the slot starts empty |
| ChatBackground.BackgroundImageCache.BackgroundImage | submodules/TelegramPresentationData/Sources/ChatControllerBackgroundNode.swift:14-99 | the returned image and the new slot are those of `BackgroundImageCall` on the old slot, and the slot stays well-formed |
| ChatBackground.CacheWallpaper | submodules/TelegramPresentationData/Sources/ChatControllerBackgroundNode.swift:107-113 | only a delivered image is stored, and it is then found under the wallpaper's key |
| ChatBackground.SignalImage | submodules/TelegramPresentationData/Sources/ChatControllerBackgroundNode.swift:103-258 | only a final value on a miss is cached, and every blurred stream or account fetch is of the wallpaper's own media resource |
| ChatBackground.SignalHitReturnsStored | submodules/TelegramPresentationData/Sources/ChatControllerBackgroundNode.swift:104-105 | a hit answers `(image, true)` with the stored image and caches nothing |
| ChatBackground.SignalPatternYieldsNothing | submodules/TelegramPresentationData/Sources/ChatControllerBackgroundNode.swift:170-171 | a pattern file on a miss answers `(nil, true)` and caches nothing |
| ChatBackground.SignalCachedImageServesRepeat | submodules/TelegramPresentationData/Sources/ChatControllerBackgroundNode.swift:104-113 | an image the plan caches makes the next request for the same wallpaper a hit with that image |
| ChatBackground.SignalCachesWhatSyncTreatsAsFallback | submodules/TelegramPresentationData/Sources/ChatControllerBackgroundNode.swift:162-166 | for an unblurred image wallpaper with a completed file, the asynchronous lookup delivers and caches the image that the synchronous one marks as a fallback |
| ReactionList.BuildReactions | submodules/Components/ReactionListContextMenuContent/Sources/ReactionListContextMenuContent.swift:628-636 | the list is the "all" entry, carrying the sum of counts, followed by one entry per reaction in attribute order; a message without an attribute gives just the "all" entry |
| ReactionList.AllEntryCountsTheRest | submodules/Components/ReactionListContextMenuContent/Sources/ReactionListContextMenuContent.swift:628-636 | the "all" count equals the sum of the other entries' counts, and only the first entry lacks a reaction |
| ReactionList.HasTabList | submodules/Components/ReactionListContextMenuContent/Sources/ReactionListContextMenuContent.swift:638 | the tab bar is shown when the list has more than two entries; the menu's constructor states this as at least two reactions besides "all" |
| ReactionList.TabItemWidth | submodules/Components/ReactionListContextMenuContent/Sources/ReactionListContextMenuContent.swift:200-213 | a measured tab item is at least both insets plus the icon spacing wide |
| ReactionList.LastMatch | submodules/Components/ReactionListContextMenuContent/Sources/ReactionListContextMenuContent.swift:286-288 | the result is the last item carrying the selected reaction, or none when no item carries it |
| ReactionList.TabListLayout | submodules/Components/ReactionListContextMenuContent/Sources/ReactionListContextMenuContent.swift:266-300 | item i's frame starts at `TabX(i)`, after i spacings, and is as wide as its measurement; the highlight takes the frame of the last selected item; the content is `TabEnd(n)`, which counts one spacing fewer than items, plus the side inset |
| ReactionList.TabsAbut | submodules/Components/ReactionListContextMenuContent/Sources/ReactionListContextMenuContent.swift:275-292 | the first item starts at the inset, each next one starts one spacing after the previous ends (0 points, so they abut), and the content is both insets, all widths and the spacings between items |
| ReactionList.ContentFitsEveryTab | submodules/Components/ReactionListContextMenuContent/Sources/ReactionListContextMenuContent.swift:200-213 | with measured items the summed width is at least one empty item per tab |
| ReactionList.IconAsWrittenGoesStale | submodules/Components/ReactionListContextMenuContent/Sources/ReactionListContextMenuContent.swift:361-370 | as written, a reused row keeps showing "a" for an item reacted "b", and never shows an icon again after an item without a reaction |
| ReactionList.IconAfterAsWritten | submodules/Components/ReactionListContextMenuContent/Sources/ReactionListContextMenuContent.swift:361-370 | as written, an icon once made is never dropped and never changes its reaction, and a row without a reaction shows none |
| ReactionList.IconAfter | submodules/Components/ReactionListContextMenuContent/Sources/ReactionListContextMenuContent.swift:361-370 | the corrected update only ever keeps an attached icon |
| ReactionList.IconShowsItemReaction | submodules/Components/ReactionListContextMenuContent/Sources/ReactionListContextMenuContent.swift:361-370 | after the corrected update a row shows exactly its item's reaction, and an icon already showing it is kept |
| ReactionList.MaxTitleWidth | submodules/Components/ReactionListContextMenuContent/Sources/ReactionListContextMenuContent.swift:381-385 | the title may use the row width less the avatar, spacing and side inset, and 32 points less when the row holds an icon; `RowNode.Update` states which width a laid-out row gets |
| ReactionList.RowNode.constructor | submodules/Components/ReactionListContextMenuContent/Sources/ReactionListContextMenuContent.swift:523-529 | a new row opens the peer it was created for, shows nothing yet and is attached |
| ReactionList.RowNode.Update | submodules/Components/ReactionListContextMenuContent/Sources/ReactionListContextMenuContent.swift:356-396 | the row shows the item at its offset and width; with the corrected icon rule of the Findings row, its icon shows exactly the item's reaction and the title is narrowed for the icon exactly when there is one |
| ReactionList.Ceil | submodules/Components/ReactionListContextMenuContent/Sources/ReactionListContextMenuContent.swift:509 | `Int(ceil(x))` is the least integer at or above x |
| ReactionList.VisibleRange | submodules/Components/ReactionListContextMenuContent/Sources/ReactionListContextMenuContent.swift:503-509 | the first index is the row holding the top of the bounds grown by 180, or 0 when that top is above the second row; the last index is the bottom of the grown bounds rounded up to whole rows |
| ReactionList.Window | submodules/Components/ReactionListContextMenuContent/Sources/ReactionListContextMenuContent.swift:511-517 | the window holds exactly the loaded indices between the first and last visible index |
| ReactionList.ClampApparentHeight | submodules/Components/ReactionListContextMenuContent/Sources/ReactionListContextMenuContent.swift:485-487 | the apparent height is at most the container plus 100, at least one row when the container allows it, and unchanged when already in range |
| ReactionList.ContainerSize | submodules/Components/ReactionListContextMenuContent/Sources/ReactionListContextMenuContent.swift:556-559 | the container is as wide as offered, and as tall as the offered height or the full list, whichever is less |
| ReactionList.ReactionsTabNode.constructor | submodules/Components/ReactionListContextMenuContent/Sources/ReactionListContextMenuContent.swift:421-455 | a new tab has its reaction, the initial state, no rows and no size |
| ReactionList.ReactionsTabNode.ReceiveState | submodules/Components/ReactionListContextMenuContent/Sources/ReactionListContextMenuContent.swift:457-471 | the state is replaced, and the list fades in if and only if it goes from no items to some |
| ReactionList.ReactionsTabNode.PlaceRows | submodules/Components/ReactionListContextMenuContent/Sources/ReactionListContextMenuContent.swift:506-536 | the visited indices are exactly the window; existing rows are reused; new rows are fresh and open the item's peer; every visited row shows its item |
| ReactionList.ReactionsTabNode.RemoveRows | submodules/Components/ReactionListContextMenuContent/Sources/ReactionListContextMenuContent.swift:538-548 | exactly the valid rows remain, unchanged, and every other row is detached |
| ReactionList.ReactionsTabNode.UpdateVisibleItems | submodules/Components/ReactionListContextMenuContent/Sources/ReactionListContextMenuContent.swift:496-553 | before layout nothing happens; after it, the rows are exactly the window's, each shows its item, dropped rows are detached, and load-more fires if and only if the list can grow and the window reaches within 16 of its end |
| ReactionList.ReactionsTabNode.ScrollViewDidScroll | submodules/Components/ReactionListContextMenuContent/Sources/ReactionListContextMenuContent.swift:478-494 | while ignoring scrolls nothing changes; otherwise the rows follow, the apparent height is re-clamped, and a request is made if and only if it changed |
| ReactionList.ReactionsTabNode.Update | submodules/Components/ReactionListContextMenuContent/Sources/ReactionListContextMenuContent.swift:555-580 | the returned size is the container, the content is one row per reactor of the total count, the rows are those of the window, and the apparent height is clamped into the container |
| ReactionList.ApparentHeightBounds | submodules/Components/ReactionListContextMenuContent/Sources/ReactionListContextMenuContent.swift:574-576 | for a non-negative container the apparent height lies in [44, container + 100] |
| ReactionList.HeaderHeight | submodules/Components/ReactionListContextMenuContent/Sources/ReactionListContextMenuContent.swift:724-742 | the header is back button 45 plus separator 7, plus 44 when there is a tab bar |
| ReactionList.FirstIndex | submodules/Components/ReactionListContextMenuContent/Sources/ReactionListContextMenuContent.swift:753 | `firstIndex(where:)`: the first entry with the reaction, or none when there is none |
| ReactionList.DismissTransition | submodules/Components/ReactionListContextMenuContent/Sources/ReactionListContextMenuContent.swift:751-764 | the dismissed tab slides when both reactions are listed, fades otherwise; `SlideFollowsListOrder` states the direction |
| ReactionList.SlideFollowsListOrder | submodules/Components/ReactionListContextMenuContent/Sources/ReactionListContextMenuContent.swift:751-764 | a switch slides if and only if both reactions are in the list, by plus or minus the width, positive exactly when moving right; otherwise it fades |
| ReactionList.ItemsNode.constructor | submodules/Components/ReactionListContextMenuContent/Sources/ReactionListContextMenuContent.swift:628-660 | the menu holds the built list, a tab bar if and only if the message has at least two reactions, and a fresh "all" tab |
| ReactionList.ItemsNode.SelectTab | submodules/Components/ReactionListContextMenuContent/Sources/ReactionListContextMenuContent.swift:675-699 | a tap on another reaction keeps the current tab for dismissal, retires it, makes a fresh tab for it current and requests an update, after which only the new tab's requests are forwarded; a tap on the current reaction does nothing |
| ReactionList.ItemsNode.ForwardRequest | submodules/Components/ReactionListContextMenuContent/Sources/ReactionListContextMenuContent.swift:702-718 | a request is forwarded if and only if it comes from the current tab, so a tab that was switched away from, the one animating out included, never relayouts the menu |
| ReactionList.ItemsNode.Update | submodules/Components/ReactionListContextMenuContent/Sources/ReactionListContextMenuContent.swift:721-772 | width is at most 260; the tab is laid out below the stacked header; the clean size is the header plus the tab's container; a pending dismissal is consumed into its slide or fade |

## Left out

- Floating point: `CGFloat` and `Float` are modelled as real numbers. Float32 rounding of the phase sum and of the particle fields is not modelled.
- DustEffect.DustEffectLayer.UpdateItems: the step is a parameter. Its value `(1/60) / animationDurationFactor` in Float32 is not computed.
- DustEffect.ParticleStart: `cos`/`sin` and the random draws are an oracle (`Draws`). Its range promise is an assumption on that oracle, not a consequence of the trigonometry.
- The Metal pipeline states, shaders, command encoders and `setBytes` plumbing are not modelled. A dispatch and a draw are records of the values they pass.
- The per-item `effectiveRect` arithmetic of the render pass (lines 257-263 of DustEffectLayer.swift) is not modelled. It is floating-point placement with no logic to prove.
- The y-flip of the item frame in the fill loop is not modelled. It does not affect the particle count.
- `MTKTextureLoader`, the shared buffer pool and the bundle lookup are oracles:
  - `AddItem` takes the texture as an `Option`;
  - `Update` takes the pool's answer per item (`pool`);
  - `MetalLibraryCache.Get` takes each step's outcome.
- The display-link callback itself (calling `updateItems` and `setNeedsUpdate` on each tick) is not modelled, and neither is the `becameEmpty` closure: `UpdateItems` returns whether it fires.
- Signal plumbing is not modelled: the asynchronous lookup is a `SignalPlan` value. The streams `BlurredStream` and `AccountFetch` are named but their emissions are not modelled. This covers the account fetch with its thumbnail-first output and the copy into the media box.
- The main-queue hop of `cacheWallpaper` is not modelled. The write is applied at once by `CacheWallpaper`.
- The cache key is coarser than the source's wallpaper equality. A wallpaper's settings are reduced to blur and rotation, and a file wallpaper's media file to its resource. Two wallpapers that differ only in other settings or other file fields compare equal here.
- DustEffect.DustEffectLayer.Update: the per-pass pipeline-state build (finding the shader functions, compiling the states, making the command encoder) is one boolean per pass, `computeBuilds` and `renderBuilds`. The library itself is the `Option` result of `MetalLibraryCache.Get`.
- Image generation is not modelled: colours, gradients, `precomposed()` and `UIImage(contentsOfFile:)` are oracle functions in `Environment`. `largestImageRepresentation` is the oracle `largest`.
- Text layout, `aspectFitted` icon sizes and font metrics are inputs: the measured title and icon widths of a tab item.
- Avatar loading, theme colours, separators and highlight animation of the menu are not modelled.
- `presentationData` is never nil after a tab's init, so the guard at line 500 of ReactionListContextMenuContent.swift is not modelled.
- The scroll view is not modelled. The tab keeps its content offset and content height as fields, and the `ignoreScrolling` window inside `update` is sequential, so it cannot be observed.
- Dictionary iteration order in row removal is not modelled: `RemoveRows` picks entries in any order, and its contract holds for every order.
- The relayout closures (`requestUpdate`, `requestUpdateApparentHeight`, `loadMore`) are not called. They are results or left to the caller:
  - `ReceiveState` returns only whether the list fades in. The relayout request that line 467 of ReactionListContextMenuContent.swift issues after every state is left to the caller, which then calls `Update`;
  - `SelectTab` returns whether an update is requested;
  - `UpdateVisibleItems` returns whether more items are asked for;
  - `ForwardRequest` decides forwarding.
- ReactionList.RowNode.Update: the row applies the corrected icon rule `IconAfter`, not the update as written at lines 361-370 of ReactionListContextMenuContent.swift. As written, a reused row keeps its first icon for a different reaction, and a detached icon still narrows the title at line 383. `IconAfterAsWritten` and `IconAsWrittenGoesStale` model and exhibit that behaviour (see Findings), and the rows of `PlaceRows`, `UpdateVisibleItems` and `ReactionsTabNode.Update` inherit the corrected rule.
- ReactionList.ApparentHeightBounds: the lower bound of 44 is proved for a non-negative container height. It also holds down to a container of -56, which layout never produces.
- The `ItemsNode.apparentHeight` property is never assigned in the source. The model keeps it untouched.

## Findings

| source | as written | input that shows it | evidently intended | confidence | as-written member | corrected member |
|---|---|---|---|---|---|---|
| submodules/Components/ReactionListContextMenuContent/Sources/ReactionListContextMenuContent.swift:361-370 | a reused row creates its reaction icon only when it has none, and for an item without a reaction removes the icon from the view but keeps referring to it (which also keeps the title narrowed at lines 383-385) | a row laid out for a reaction "a" and then, reused, for a reaction "b" keeps showing "a"; a row laid out for "a", then for no reaction, then for "a" again shows no icon | a row shows exactly the reaction of the item it displays | not executed; the stale icon needs a row reused for a different item at the same index | ReactionList.IconAsWrittenGoesStale | ReactionList.IconShowsItemReaction |
