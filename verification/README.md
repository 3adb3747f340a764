# Draconya core model

A model, in Dafny, of the parts of Draconya that turn bytes and text into worlds, routes, spells and messages, and the
proofs of what those parts are for. Each module stands beside one source file, or one half of it.

- **Map files.** `OtbmPayload`, `Otbm`, `OtbmTree` and `OtbmMap` model the OTBM reader: an escaped, nested byte format
  read by one loop with an explicit stack that skips whole nodes outside a region. The main result is that this loop,
  on a printed map, delivers exactly the tiles inside the region, whatever other nodes stand anywhere in it; on any
  printed tree of plain types it is a recursive walk.
- **From the map file to the engine's map.** `ImportMap` and `ImportRegion` cut a region to its walkable component and
  draw it as rows of characters; `BuildTilemap` turns the rows into flat layers; `Tilemaps` holds the lookups. The main
  result is `ImportThenBuild`: blocking, speed and zones of every tile survive the way through the text.
- **Routes.** `TraceRoute` and `RouteTracer` find shortest ways where stepping on a stair leads elsewhere and join them
  into loops, `Routes` is the checker and what an accepted route means for endless walking, `FloorGraph` chooses the
  stair towards another floor. `Walks` holds the bound both breadth-first searches rely on.
- **The whole world.** `WorldMap` says what the world holds and what a window of open sectors shows, `WorldBuild` is the
  builder whose sectors leave the window as bytes and are read back to be merged, `Sectors` those bytes, `SectorFormat`
  their layout, `Census` the bitset count of the same stream, `Minimap` the six-level picture pyramid. `OtbmBounds` proves
  that the reader delivers no tile the sectors could not hold, whatever the file.
- **Spells.** `SpellFormula` reduces Lua expressions to five coefficients, `SpellPower` evaluates them.
- **Messages and saved preferences.** `Codec` is the frame format and its batches; `BotConfigStore` the queue of saved
  bot configurations in Redis with the workers that carry it to the database; `BotMigration` the step from the first
  bot vocabulary to the second.
- **Catalogues and art.** `Summons` prunes monsters whose summons are missing, `LegacySprites` paints the old sprite
  atlas, `IdRanges` is the id inventory and its binary search. `Numbers` and `Wrappers` hold what several parts share.

Code that changes things step by step is a method or a class with its loops, proved against a function that says what
it is to compute; what the source promises is proved about those functions. JSON, deflate, the art package's flags,
scenery tables, frame keys and nonces are parameters; nonces are assumed fresh. Numbers are unbounded except where the
source's width matters, and there the wrap-around is written out. Formulas are over the reals.

Where the code and its own words, or what one would expect, differ, the model follows the code:

- A comment says items inside containers are flattened (`scripts/otbm.ts:134`); only direct items of a tile are kept.
- Skipping a node treats a type byte as any other byte, so it is right exactly for types below 0xFD
  (`OtbmTree.SkipNeedsPlainKinds`); every type of the format is one.
- Products in spell formulas can drop a skill-times-attack term (`SpellFormula.LostTermIsAccepted`); the exact condition
  under which none is dropped is `Exact`, and `MultiplyExactness` proves it is both enough and needed.
- The tracer drops the last step of the loop as a copy of the first tile, but when a stair lands on the first tile that
  step may be the stair, and the checker finds the loop open (`RouteTracer.LandingStartRejected`). Every trace passes
  exactly when each shortest way from the last point that is not the first ends with a plain step onto the first
  (`RouteTracer.TracedRouteAccepted`).
- A route accepted by the checker can start on a stair step and then never return to it (`Routes.StairStartDoesNotLoop`).
- A local used before its name is bound again is unfolded to the later binding (`SpellFormula.EarlyUseIsMisread`), and two
  locals that mention each other are unfolded without end (`SpellFormula.CycleNeverEnds`).
- Keys of tiles and marks of the census are arithmetic on coordinates; `Tilemaps.KeysDifferIff` and `Census.CountIsExact`
  say exactly when they tell places apart (`Tilemaps.TileKeyCollides` and `Census.WidePlacesCollide` are two that do not).
- The first bot vocabulary has no bound on rules in its schema, so the migration's "impossible" error is possible.
- A spill window of one sector would detach the sector just opened, so the window's capacity is at least two; the
  source uses 4096 (`scripts/world-map.ts:43`).

## Model

| member | source | states |
|---|---|---|
| `OtbmPayload.EscapeOtbm` | scripts/otbm.ts:419-426 | The printer emits exactly the escaped form of its bytes. |
| `OtbmPayload.UnescapeInvertsEscape` | scripts/otbm.ts:185-202 | Reading an escaped payload that ends at a mark gives back the payload, whatever its bytes, and stops at the mark. |
| `OtbmPayload.ReadPayload` | scripts/otbm.ts:185-202 | The loop unescapes up to the next mark; it fails only on an escape byte at the end of the file. |
| `OtbmPayload.ReadAttributes` | scripts/otbm.ts:216-236 | The cursor loop parses the attribute list to its end, with the same record or the same error as reading one attribute after the other. |
| `OtbmPayload.AttributesRoundTrip` | scripts/otbm.ts:204-236 | Any list of attributes that fits the field widths reads back as its meaning: every field keeps the last value written, attributes without a use are skipped by their size. |
| `OtbmPayload.TakeU32Inverts` | scripts/otbm.ts:433-435 | A 32-bit number printed low half first reads back as itself. |
| `Otbm.ReadHeader` | scripts/otbm.ts:251-264 | The header is refused exactly for the file starts the format forbids; otherwise its five fields are those whose print begins the root's payload. |
| `Otbm.HeaderRoundTrip` | scripts/otbm.ts:251-264 | Every header whose fields fit their widths is read back from its print, whatever follows. |
| `Otbm.SkipFrom` | scripts/otbm.ts:270-284 | The skipping loop stops just after the end mark of the node it was in, or reports an unclosed node. |
| `Otbm.ReadOtbmTiles` | scripts/otbm.ts:304-379 | The loop over bytes and stack delivers the tiles, and the error if any, of the state machine that reads one mark at a time. |
| `OtbmTree.OtbmNode` | scripts/otbm.ts:429-431 | For all children trees: given their prints, the printed node is the print of the tree, the form the reader's theorems speak of. |
| `OtbmTree.SkipLandsAfterNode` | scripts/otbm.ts:270-284 | Skipping from after a type byte lands after the end mark of that very node, for every payload and all children of plain types. |
| `OtbmTree.SkipNeedsPlainKinds` | scripts/otbm.ts:270-284 | For every type byte: skipping a parent past a child of that type is right, for every payload and all plain children, exactly when the type is none of 0xFD, 0xFE and 0xFF. |
| `OtbmTree.RunAllPrinted` | scripts/otbm.ts:316-378 | Reading printed trees of plain types from any state is walking them recursively, whatever follows. |
| `OtbmTree.ReaderIsWalk` | scripts/otbm.ts:304-379 | For every tree of plain types, well formed or not, the iterative pruning reader gives the tiles and the error of a recursive walk. |
| `OtbmMap.ReadPrintedMap` | scripts/otbm.ts:304-379 | Reading a printed map with a region yields, in document order, exactly the tiles inside it, with ground, flags, house and direct items; nodes that hold nothing of the grid may stand anywhere. |
| `OtbmMap.PruningIsFiltering` | scripts/otbm.ts:327-349 | Reading a narrow region is reading a wider one and filtering: pruning whole nodes loses no tile. |
| `OtbmBounds.DeliveredTiles` | scripts/otbm.ts:304-379 | For every byte string, well formed or not: each tile delivered is inside the region, and its coordinates, ids, counts and house have the widths of the format. |
| `Tilemaps.TileKeyInjective` | packages/content/src/map.ts:170-175 | Tile keys are equal exactly for equal tiles, as long as both coordinates have at most five digits. |
| `Tilemaps.KeysDifferIff` | packages/content/src/map.ts:170-175 | All tiles of an area, over all floors, have keys of their own exactly when it is empty, at most 100000 wide and high, or one column of at most ten thousand million. |
| `BuildTilemap.ZonePaletteIsOneToOne` | packages/content/src/map.ts:55-79 | Zone characters and zone values stand for each other one to one. |
| `BuildTilemap.BlockedLayer` | packages/content/src/map.ts:196-204 | Every cell of the flat layer is set exactly where the text does not draw free ground. |
| `BuildTilemap.SpeedLayer` | packages/content/src/map.ts:205-223 | Every cell has the palette speed in 16 bits or the default; the layer is refused exactly when a free tile has a character outside the palette. |
| `BuildTilemap.ZoneLayer` | packages/content/src/map.ts:234-253 | Every cell has the value of its character; refused exactly for a character outside the palette. |
| `BuildTilemap.BuildStairs` | packages/content/src/map.ts:262-269 | The keyed stairs keep the last entry of each key, the stairs by floor keep all of them in order. |
| `BuildTilemap.Build` | packages/content/src/map.ts:182-290 | A map is built exactly from texts with a floor, known characters and the default floor, and then says what its text says. |
| `BuildTilemap.BuiltBlocks` | packages/content/src/map.ts:324-329 | After building, a tile is blocked unless the text draws free ground there, for every coordinate. |
| `BuildTilemap.BuiltSpeed` | packages/content/src/map.ts:332-337 | After building, the speed of a tile is that of its character, or the default. |
| `BuildTilemap.BuiltZones` | packages/content/src/map.ts:345-350 | After building, the zone flags of a tile are those of its character, or none. |
| `BuildTilemap.BuiltStairsConsistent` | packages/content/src/map.ts:262-269 | The two forms of the stairs agree exactly when no two stairs with one key lead to different places. |
| `FloorGraph.FloorChangeToward` | packages/content/src/map.ts:369-391 | Null exactly when the floors are equal or no stairs link them; otherwise the stair starts a way with the fewest stairs. |
| `FloorGraph.CrossingLowers` | packages/content/src/map.ts:262-269 | On a map whose stairs agree, crossing the first stair of a fewest-stairs way leaves exactly one stair less. |
| `FloorGraph.CrossingReaches` | packages/content/src/map.ts:369-391 | Whoever searches anew on every floor and crosses the stair found stands on the target after n crossings exactly when n is at least the fewest number of stairs. |
| `Routes.ValidateRoute` | packages/content/src/map.ts:433-488 | The checker loop reports exactly the blocked tiles, bad steps and bad spawns. |
| `Routes.NoProblemsIffAccepted` | packages/content/src/map.ts:433-488 | The list of problems is empty exactly for the accepted routes. |
| `Routes.OneLap` | packages/content/src/map.ts:442-470 | One lap of an accepted route is walkable step by step and ends where stepping on the first tile lands. |
| `Routes.AcceptedRouteLoops` | packages/content/src/map.ts:433-476 | An accepted route returns to its first tile after any number of laps exactly when stepping on that tile does not lead away. |
| `Routes.StairStartDoesNotLoop` | packages/content/src/map.ts:442 | A route that starts on a stair step is accepted and yet does not return to its first tile. |
| `TraceRoute.PathBack` | scripts/trace-route.ts:118-130 | Following the recorded predecessors back spells a path of the length the search found. |
| `TraceRoute.ShortestPath` | scripts/trace-route.ts:85-131 | Null exactly when the target cannot be reached over plain steps and stairs; otherwise replaying the points ends at the target and no shorter list does. |
| `RouteTracer.AnchorSpawnPoints` | scripts/trace-route.ts:139-171 | Every spawn is anchored to the first of the nearest tiles, on its own floor if the route has any, and the result is a stable sort by route index. |
| `RouteTracer.Trace` | scripts/trace-route.ts:180-206 | A route comes out exactly when there are two points or more, all open and stair-free, not all one place, each reachable from the one before; it is then the first point and the concatenated shortest legs without the closing step. Each error names the first point that causes it, and a route is too short exactly when all points are one place. |
| `RouteTracer.TraceAccepted` | scripts/trace-route.ts:196-206 | One trace passes the checker exactly when its way back from the last point that is not the first ends one plain step from the first, on its floor. |
| `RouteTracer.TracedRouteAccepted` | scripts/trace-route.ts:196-206 | Before tracing: every trace by shortest legs passes the checker exactly when every shortest way from the last point that is not the first ends with a plain step onto the first. |
| `RouteTracer.PlainStartClosesWell` | scripts/trace-route.ts:200 | A first point that is no landing of a stair meets that condition, from every other point. |
| `RouteTracer.TraceAndValidate` | scripts/trace-route.ts:180-206 | Tracing succeeds and fails as `Trace` does; the problems are those the checker reports for the traced tiles and spawns, and there are none exactly when the way back closes, and then any number of laps can be walked back to the first tile. |
| `RouteTracer.LandingStartRejected` | scripts/trace-route.ts:200 | A first point that is a stair landing can give a traced route the checker rejects: the last tile is popped although it was the stair. |
| `ImportMap.CollectTiles` | scripts/import-map.ts:139-153 | The last record of every position, and as many conflicts as records beyond the positions. |
| `ImportMap.RecordsCountPlaces` | scripts/import-map.ts:139-153 | The importer keeps as many tiles as the stream has distinct places; the census counts as many exactly when no two of these share a key and bit. |
| `ImportMap.ZoneFlagsOf` | scripts/import-map.ts:169-176 | The normalised zone is always one the palette can write; no-logout and protection survive, houses are protected. |
| `ImportMap.BlockedOf` | scripts/import-map.ts:270-286 | A tile is blocked exactly when some unclassified thing of its stack does not let through; the unknown ids are exactly collected. |
| `ImportMap.FindOrigin` | scripts/import-map.ts:315-327 | The origin is the nearest walkable tile within three rings, in the fixed order; none exactly when there is none. |
| `ImportMap.Flood` | scripts/import-map.ts:328-341 | The breadth-first flood sees exactly what four-neighbour walking reaches. |
| `ImportMap.WalkableComponent` | scripts/import-map.ts:309-342 | Exactly the walkable component of the origin found for the seed, or an error exactly when no tile within three rings is walkable. |
| `ImportRegion.Cut` | scripts/import-map.ts:369-392 | The seed floor keeps exactly the component and its one-tile border, other floors what lies in the box these occupy. |
| `ImportRegion.KeepTiles` | scripts/import-map.ts:348-392 | The tiles kept are the last existing records that the cut lets stay; blocking and zones are judged before the cut. |
| `ImportRegion.BuildPalette` | scripts/import-map.ts:421-438 | Each distinct speed has its own character, never the blank, and the palette gives the speed back. |
| `ImportRegion.ZoneRowsOf` | scripts/import-map.ts:193-212 | Rows for exactly the floors with a zone in the region, every character that of its tile. |
| `ImportRegion.DeriveZones` | scripts/import-map.ts:224-230 | The zone rows straight from the stream are those of the existing last records. |
| `ImportRegion.Import` | scripts/import-map.ts:348-584 | An import either is what the source promises, and then no reason to refuse holds, or fails for a reason that holds. |
| `ImportRegion.ImportBuilds` | scripts/import-map.ts:440-473 | The text of every import is accepted by the map builder, and the map is as large as the region. |
| `ImportRegion.ImportThenBuild` | scripts/import-map.ts:348-472 | After importing and building, for every local tile: free exactly when it was kept and its stack lets through, its speed the source speed in 16 bits, its zone that of the last existing record. |
| `ImportRegion.DerivedZonesAgree` | scripts/import-map.ts:224-230 | Deriving zones from only the part of the stream inside the final region gives, floor by floor, the very rows the import wrote from the whole stream. |
| `ImportRegion.RereadZonesAgree` | scripts/import-map.ts:784-790 | On the bytes: importing a map file with one region and then reading that file anew with the final region derives the rows written. |
| `WorldBuild.WorldBuilder.Merge` | scripts/world-map.ts:77-84 | Pending cells win over the tiles read back and each overlap counts as one duplicate. |
| `WorldBuild.WorldBuilder.SpillOldest` | scripts/world-map.ts:72-88 | Reading back, merging and writing one sector shows the same world and keeps duplicates plus held cells; it is refused only when the sector cannot be written. |
| `WorldBuild.WorldBuilder.Add` | scripts/world-map.ts:90-113 | After each record the window is within capacity and open sectors and files together are the last-write-wins map of the records read. |
| `WorldBuild.BuildWorld` | scripts/world-map.ts:60-141 | For every capacity of at least two there is a file for every sector of the last-write-wins map of the stream, written from its cells; tiles and duplicates are the distinct and repeated places; refused only when after some part of the stream a sector could not be written. |
| `WorldBuild.BuildFromFile` | scripts/world-map.ts:204-208 | The same from the bytes of any file, with the reader's error when it has one. |
| `WorldBuild.FileDecodes` | scripts/world-map.ts:78-86 | Every file decodes to its own sector with exactly the cells it was written for. |
| `WorldBuild.OneSetOfFiles` | scripts/world-map.ts:20-22 | The files are determined by the world alone: two builds with different windows give the same bytes. |
| `WorldBuild.RefusedIff` | packages/client/src/world/sector.ts:66-99 | A sector is refused exactly when a stack is higher than 255 items or there are more than 65535 ids. |
| `Sectors.EncodeSector` | packages/client/src/world/sector.ts:66-114 | Writing gives the bytes of the sector, or the first reason it cannot be written. |
| `Sectors.DecodeSector` | packages/client/src/world/sector.ts:116-163 | Reading with a cursor is parsing header, palette and tiles, with nothing left over. |
| `SectorFormat.DecodedIffLaidOut` | packages/client/src/world/sector.ts:116-163 | The reader accepts exactly the byte strings of the layout, references within the palette and every number in its width, and gives what they say; every other input is refused. |
| `Sectors.RoundTrip` | packages/client/src/world/sector.ts:66-163 | For every writable sector, reading the bytes gives its tiles by cell with every number in its width. |
| `Sectors.KeptIffStorable` | packages/client/src/world/sector.ts:66-163 | The bytes hold a writable sector unchanged exactly when its tiles are by cell and every number fits its width. |
| `Sectors.WorldSectorsComeBack` | scripts/world-map.ts:72-88 | A writable sector of a world read in the format's widths, written and read back, has exactly the last record of each of its tiles, in whatever order they were listed. |
| `Census.KeyAndBitInjective` | scripts/map-census.ts:96-98 | Sector key and bit together identify a place with 16-bit coordinates. |
| `Census.Counter.Add` | scripts/map-census.ts:150-168 | One more record marks its key and bit, or counts as a repetition exactly when they were marked. |
| `Census.TakeCensus` | scripts/map-census.ts:150-220 | For every stream the census counts one tile for each key and bit, which is the number of distinct places exactly when no two of them share one. |
| `Census.CountIsExact` | scripts/map-census.ts:96-98 | For every stream the places counted are all its places exactly when no two of them share a key and bit. |
| `Census.RegionIsApart` | scripts/map-census.ts:310 | Reading any file with a region of 16-bit coordinates delivers places of which no two share a key and bit. |
| `Census.SectorsHoldThePlaces` | scripts/world-map.ts:60-141 | The sectors hold as many tiles as the stream has distinct places; the census counts as many exactly when no two of these share a key and bit. |
| `Minimap.SquareIs` | scripts/world-minimap.ts:94-98 | The square of a pixel is exactly the places whose coordinates scale down to it. |
| `Minimap.EmptyIffSquareEmpty` | scripts/world-minimap.ts:99-123 | A pixel is empty exactly when its whole square is. |
| `Minimap.JoinIntoParent` | scripts/world-minimap.ts:110-121 | Joining a block writes its first colours into its quadrant of the parent and nothing else. |
| `Minimap.Shrink` | scripts/world-minimap.ts:99-123 | The next level shows, at every pixel, the first colour of the four below in quadtree order. |
| `Minimap.PaintSector` | scripts/world-minimap.ts:52-75 | Painting a sector shows its dots over what was there. |
| `Minimap.BuildMinimap` | scripts/world-minimap.ts:45-92 | At each of six levels files and index list exactly the blocks with a colour, and every pixel is the first colour of its square of base tiles. |
| `SpellFormula.MultiplyExactness` | scripts/catalog/spell-formula.ts:72-86 | An accepted product of forms is right for every input exactly when no skill-times-attack term is dropped. |
| `SpellFormula.ReduceIsSound` | scripts/catalog/spell-formula.ts:109-154 | An accepted expression that drops no term is worth its form for every level, skill and attack, locals unfolded, names bound again included. |
| `SpellFormula.ProductExactness` | scripts/catalog/spell-formula.ts:136-150 | A product of exact sides is reduced correctly exactly when it drops no term itself. |
| `SpellFormula.ExactIffFaithful` | scripts/catalog/spell-formula.ts:109-154 | For whole expressions, locals unfolded: no product drops a term exactly when every part that gets a form is worth that form for every level, skill and attack. |
| `SpellFormula.UnfoldIsReduce` | scripts/catalog/spell-formula.ts:109-154 | Unfolding by name, cut off at any depth from the number of locals on, ends on every straight-line body and gives its form. |
| `SpellFormula.EarlyUseIsMisread` | scripts/catalog/spell-formula.ts:198-209 | The body excluded: a local used and then bound again is unfolded to the later value, at every depth, while Lua computes the earlier. |
| `SpellFormula.CycleNeverEnds` | scripts/catalog/spell-formula.ts:109-154 | Two locals that mention each other are still unfolding at every depth. |
| `SpellFormula.LostTermIsAccepted` | scripts/catalog/spell-formula.ts:64-86 | A concrete accepted product whose form is wrong, because the single-term test does not look at the skill-times-attack coefficient. |
| `SpellFormula.FormsAreCanonical` | scripts/catalog/spell-formula.ts:34-93 | Two forms are equal exactly when they are equal as functions. |
| `SpellFormula.SameFormIffSameFunction` | scripts/catalog/spell-formula.ts:109-154 | Two accepted exact expressions get one form exactly when Lua computes the same for every input. |
| `SpellFormula.EndToEnd` | scripts/catalog/spell-formula.ts:225-284 | From the declaration to the game: each end of the range before truncation is the signed Lua value up to 5e-10 times (1 + level + skill + attack + skill times attack). |
| `SpellPower.RangeIsProper` | packages/content/src/spell-power.ts:26-75 | The range always satisfies 1 <= min <= max: with a formula for all inputs, without one for inputs and a conversion that are not negative. |
| `Codec.ScrambleTwice` | packages/protocol/src/codec.ts:27-39 | Scrambling twice with one key gives the bytes back, for every key. |
| `Codec.Scramble` | packages/protocol/src/codec.ts:28-39 | The loop changes the buffer in place to its scrambled form, from an offset on. |
| `Codec.OpenBuilt` | packages/protocol/src/codec.ts:56-77 | Opening a built frame gives back its flags and body, for every key. |
| `Codec.SplitBatch` | packages/protocol/src/codec.ts:80-94 | The loop splits the body as its length prefixes say, or fails on a broken one. |
| `Codec.SplitIffJoined` | packages/protocol/src/codec.ts:80-94 | A body splits into a list exactly when it is the length-prefixed concatenation of that list. |
| `Codec.PackBatch` | packages/protocol/src/codec.ts:177-202 | One buffer of the final size, filled in place and scrambled, is the batch frame of the given frames. |
| `Codec.Encode` | packages/protocol/src/codec.ts:49-66 | The encoded frame is the scrambled text, deflated from the threshold on. |
| `Codec.ReadMessage` | packages/protocol/src/codec.ts:96-125 | A message comes out exactly when flags, inflation, JSON, opcode, table and schema all accept. |
| `Codec.ReadFrame` | packages/protocol/src/codec.ts:127-149 | A frame is read as its one message, or as the readable parts of its batch in order. |
| `Codec.BatchReadsReadable` | packages/protocol/src/codec.ts:127-202 | Decoding a batch of arbitrary frames returns exactly the readable ones, in order. |
| `Codec.NestedBatchIsDropped` | packages/protocol/src/codec.ts:127-149 | A batch inside a batch is read as if it were not there. |
| `Codec.EncodedIsReadable` | packages/protocol/src/codec.ts:151-171 | An encoded message decodes to itself, alone, whenever JSON, deflate, tables and schema keep it. |
| `Codec.BatchRoundTrip` | packages/protocol/src/codec.ts:173-202 | Decoding a packed batch of encoded messages returns those messages in order, whatever the keys. |
| `BotConfigStore.Acknowledged` | packages/server/src/bot-config-store.ts:13-18 | Compare-and-delete takes away one field exactly when it still holds that text. |
| `BotConfigStore.Store.Save` | packages/server/src/bot-config-store.ts:53-56 | The entry of the character becomes an envelope with the fresh nonce. |
| `BotConfigStore.Store.Acknowledge` | packages/server/src/bot-config-store.ts:74-77 | The entry goes only if it is the one acknowledged. |
| `BotConfigStore.Store.Quarantine` | packages/server/src/bot-config-store.ts:83-86 | The corrupt text is kept aside and leaves the queue only if nothing newer is there. |
| `BotConfigStore.SettleBotConfig` | packages/server/src/jobs/bot-config.ts:14-52 | Undisturbed, the pending entry goes to a writable row or to quarantine, leaves the queue, and touches no other character. |
| `BotConfigStore.StepKeepsInvariant` | packages/server/src/jobs/bot-config.ts:19-52 | Every atomic step of savers, workers, crashes, deletions and delayed acknowledgements keeps the protocol invariant. |
| `BotConfigStore.NoEditIsLost` | packages/server/src/bot-config-store.ts:53-86 | After any run the last configuration saved for a character is pending or already in the database. |
| `BotConfigStore.OnlySettledEntriesLeave` | packages/server/src/bot-config-store.ts:74-86 | Whatever arrives however late, an entry leaves the queue only once its configuration is in the database or its corrupt text was put aside; the text is still there exactly when it is the last put aside for that character. |
| `BotConfigStore.OneSettlingDrains` | packages/server/src/jobs/bot-config.ts:14-52 | From every reachable state, with the row's lock free and a worker idle, one undisturbed settling empties the field whatever it holds: the last configuration saved is in the database, a corrupt text is kept aside. |
| `BotMigration.Bars` | packages/content/src/bot-migration.ts:87-103 | The slot, padding and slicing loops give, at every place of every bar, the rule due there with its hotkey. |
| `BotMigration.Migrate` | packages/content/src/bot-migration.ts:46-128 | The migration gives the assembled configuration, parsed, or the error the source throws. |
| `BotMigration.BarHotkeys` | packages/content/src/bot-migration.ts:83-92 | Hotkeys within a bar are distinct, the first 22 in order, and the last two places have none. |
| `BotMigration.MigratesIffRulesFit` | packages/content/src/bot-migration.ts:79-81 | A configuration of the first vocabulary migrates exactly when it has at most 96 rules; the result always satisfies the second schema. |
| `BotMigration.NinetySevenRulesAreRefused` | packages/content/src/bot-migration.ts:76-81 | The case the source calls impossible is not: the first schema accepts 97 rules and the migration throws. |
| `BotMigration.MigrationConservesRules` | packages/content/src/bot-migration.ts:55-103 | The occupied slots read bar after bar are exactly the rules in category order. |
| `BotMigration.SlotTellsRule` | packages/content/src/bot-migration.ts:60-73 | A slot gives its rule back: condition, switch, target and action, but for an item having become the supply of the same id. |
| `BotMigration.MigrationIsIdempotent` | packages/content/src/bot-migration.ts:46-51 | Migrating twice is migrating once, whatever was saved. |
| `BotMigration.MigrationKeepsTheRest` | packages/content/src/bot-migration.ts:98-128 | Every bar is full length and valid, targeting, exit, follow and lure are carried over, the ring swap becomes its automation. |
| `Summons.ReadGenerated` | scripts/catalog/monsters.ts:1284-1297 | The loop keeps the first unblocked monster of each id and reports the others. |
| `Summons.FreshAreFirst` | scripts/catalog/monsters.ts:1284-1297 | A monster goes on exactly when it is the first unblocked one of its id; the ids that go on are distinct. |
| `Summons.DropRound` | scripts/catalog/monsters.ts:1301-1312 | Splicing the orphans out one by one leaves the others in order and reports each orphan. |
| `Summons.PruneSummons` | scripts/catalog/monsters.ts:1298-1313 | The loop ends, with the rounds of pruning and their reports. |
| `Summons.PrunedIsLargestClosed` | scripts/catalog/monsters.ts:1298-1313 | What remains is closed under summoning and contains every closed part of the input. |
| `Summons.PrunedKeepsOrder` | scripts/catalog/monsters.ts:1298-1313 | What remains is in the input order, with every copy of what it keeps. |
| `Summons.DroppedAreJustified` | scripts/catalog/monsters.ts:1304-1311 | Every report names summons that are not in the final catalogue. |
| `Summons.PruningConserves` | scripts/catalog/monsters.ts:1304-1311 | Every monster is kept or reported, never both: the copies of each id add up. |
| `Summons.ReadMonsterCatalog` | scripts/catalog/monsters.ts:1273-1313 | Both loops together give the pruned catalogue and the reports in the order they arise. |
| `Summons.CatalogueIsLargestClosed` | scripts/catalog/monsters.ts:1273-1313 | A monster is in the catalogue exactly when some closed set of first unblocked monsters has it. |
| `LegacySprites.PaintLegacySprite` | scripts/build-asset-library.ts:228-268 | In place: a drawn sprite shows its run-length expansion in its slot, a missing one changes nothing, a broken one is an error and changes nothing outside the slot. |
| `LegacySprites.BlitStaysInSlot` | scripts/build-asset-library.ts:256-265 | Painting a slot changes no pixel outside of it. |
| `LegacySprites.SlotsPartition` | scripts/build-asset-library.ts:321-323 | Every pixel of a page belongs to exactly one slot, and every slot lies on the page. |
| `LegacySprites.PaintPage` | scripts/build-asset-library.ts:312-327 | A page holds exactly the pictures of its sprites and fails exactly when one is broken. |
| `LegacySprites.BuildLegacySpriteLibrary` | scripts/build-asset-library.ts:286-330 | The library is refused exactly for a bad header or a broken sprite; otherwise pages, records and the count of available sprites are complete. |
| `LegacySprites.SpriteIsWhereRecorded` | scripts/build-asset-library.ts:308-327 | Every sprite is found, pixel by pixel, where its record says, and is available exactly when it has an offset. |
| `LegacySprites.OrderDoesNotMatter` | scripts/build-asset-library.ts:312-327 | The finished page is the same for every order of painting that reaches every slot. |
| `IdRanges.RangesOf` | scripts/pack-inventory.ts:38-47 | Increasing, non-touching ranges that cover exactly the given ids. |
| `IdRanges.ApartIsFewest` | scripts/pack-inventory.ts:37-47 | No list of ranges with the same coverage is shorter, in any order, overlapping or not. |
| `IdRanges.ApartIsUnique` | scripts/pack-inventory.ts:37-47 | There is exactly one list of increasing, non-touching ranges for a set of ids. |
| `IdRanges.PackHas` | packages/content/src/pack.ts:22-35 | The binary search answers whether some range covers the id, for all ranges the schema admits. |
| `IdRanges.InventoryHas` | packages/content/src/pack.ts:22-35 | Asking the ranges built from some ids is asking whether the id is one of them. |

## Left out

- WorldBuild.BuildWorld: needs a capacity of at least two, because flushing to half of one closes the sector being filled, and tiles of the format's widths, because wider numbers are cut in the bytes of a spilled sector; `OtbmBounds.DeliveredTiles` proves the reader delivers no others.
- OtbmTree.ReaderIsWalk: node types are below 0xFD, because skipping reads a type byte like any other (`OtbmTree.SkipNeedsPlainKinds`).
- SpellFormula.ReduceIsSound: for bodies in which the last binding of every name a local uses comes before it; for others the unfolding can give another value or never end (`SpellFormula.EarlyUseIsMisread`, `SpellFormula.CycleNeverEnds`).
- SpellFormula.EndToEnd: over the reals; floating-point rounding inside the evaluation is not modelled.
- SpellPower.RangeIsProper: without a formula, for a conversion that is not negative, as the content schema demands (`packages/content/src/schemas.ts:3972-3976`).
- Codec.EncodedIsReadable: for messages that JSON, deflate and the schema give back unchanged; these are parameters.
- BotConfigStore.NoEditIsLost: rows are not created during a run, and an edit for a deleted character counts as settled.
- BotConfigStore.SettleBotConfig: one undisturbed settling; what others do between its reads is left to the steps of the protocol.
- ImportRegion.Import: the line-of-sight layer, interactables, the stack file for the client and the report are not drawn; scenery classification is a parameter.
- BuildTilemap.Build: the line-of-sight layer, interactables, the entry point and the source field are not part of the built map.
- LegacySprites.PaintLegacySprite: four bytes of a page are one colour, and the page is always the atlas's 2048 pixels wide.
- Minimap.BuildMinimap: the index is a set of blocks per level, without the order in which they are listed and without PNG bytes.
- IdRanges.PackHas: takes the ranges of one register; choosing the register by its name is left out.
- Error texts and byte offsets of errors, Latin-1 decoding of texts, towns and waypoints of a map file.
- The world index with its bounding boxes, census sizes and palettes, report formatting.
- Reading bot configurations field by field through the schema library: a saved configuration is taken as accepted or not.
- Field mapping of the catalogues, Lua and XML parsing, disk, network, command lines and user interface.
