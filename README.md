# Shade-and-sun ecosystem: a verified model of the simulation tick

This project models the core of a small pyglet game (`main.py`, `flowers.py`): a
one-dimensional strip of ground, one temperature per screen column, with flowers
standing on it and a butterfly flying above it. Twenty times a second, `state_update` runs four passes in a
fixed order:

1. **Shade map.** Every column is reset to -1, then each sprite (every flower and
   the butterfly) stamps the columns `range(int(x), int(x + width))` that lie in
   the array with `max(sprite.y, shaded[i])`.
2. **Temperature.** A sunlit column (`shaded[i] == -1`) warms by `0.2 * dt`, capped
   at 1; a shaded one cools by `0.3 * dt`, floored at 0.
3. **Death.** A flower's mean temperature is the sum of the in-range cells of its
   span divided by its full sprite width. Every flower whose mean lies outside its
   class's survival band is collected first; the collected ones are removed
   together afterwards.
4. **Seeding.** For every cell and every class of `flower_classes`, a cell whose
   temperature lies strictly inside the class's seeding band takes one random
   draw, and a draw above 0.99 adds a new flower of that class at `x = i`.

At the fast cadence `animation_update` moves the butterfly by its velocity, and
the arrow-key handlers add and subtract `btn_speed` from its horizontal speed.

Layout:

- `builtins.dfy` (module `Builtins`): Python's `int()` on floats (truncation
  toward zero), `min` and `max`.
- `flowers.dfy` (module `Flowers`): the species table as data: `Species`
  (seeding band, survival band, sprite width), `Flower`, `RedFlower`,
  `FlowerClasses`, `NewFlower`.
- `shading.dfy` (module `Shading`): sprites, column coverage, and `Shade`, the
  value the shade pass leaves in a column.
- `temperature.dfy` (module `Temperature`): `NewTemp`, the per-column rule.
- `lifecycle.dfy` (module `Lifecycle`): span sums, flower means, `Dies`,
  `Survivors`, `RemoveIndices` (the set difference), and the seeding scan `Seeds`.
- `motion.dfy` (module `Motion`): class `Butterfly` (position, velocity, key
  handlers) and the key-event algebra.
- `simulation.dfy` (module `Simulation`): class `World`, holding the `shaded`
  and `temps` arrays, the flower list, the butterfly and the class table; its
  methods are the four passes and `StateUpdate`, each proved against the
  functions above.

Modelling choices:

- Temperatures, `dt` and positions are `real`; floating-point rounding is not modelled.
- The flower set is a sequence. A flower's identity is its position in it, so
  two flowers at the same `x` are two flowers (the game's sprites hash by
  identity), and the dead set is a set of positions.
- `random.random()` is an injected stream `draws: nat -> real`, read in order;
  `StateUpdate` returns how many draws the tick consumed.
- Sprite widths (image width times scale) are opaque inputs: `Species.width` for
  flowers, `Butterfly.width` for the butterfly. A flower's width must be positive
  since the death pass divides by it.
- The sprites are visited as the flowers followed by the butterfly; the source
  walks an unordered set. `SpritesAreUnionMembers` proves the list holds exactly
  the members of that set, and `ShadeDependsOnlyOnMembers` proves the order (and
  any repetition) does not change the result.
- A flower's mean is the sum over the cells of its span that lie in the array,
  divided by its full sprite width: cells outside the array count as 0 in the
  mean, and a flower with no cell in the array is still judged (its mean is 0).

## Model

| member | source | states |
|---|---|---|
| Builtins.Trunc | main.py:77 | `int()` on a float truncates toward zero: for `r >= 0` it is the floor, for `r < 0` the least integer not below `r` |
| Builtins.TruncDiffersFromFloor | main.py:77 | truncation and floor differ on `-0.5` (0 against -1) |
| Builtins.TruncAgreesWithFloorFromZero | main.py:77-78 | for every index `i >= 0`, `int()` and floor put `i` on the same side of a span bound, so the choice never changes which array cells a sprite covers |
| Builtins.Max | main.py:79 | `max(a, b)` is at least both arguments and equal to one of them |
| Builtins.Min | main.py:84 | `min(a, b)` is at most both arguments and equal to one of them |
| Flowers.NewFlower | flowers.py:4-7 | a new flower has its `x` equal to the argument, `y = 0`, and the given class |
| Flowers.RedFlowerBands | flowers.py:13-16 | the red flower's seeding band (0.4, 0.5) and survival band [0.2, 0.8] are non-empty, and every temperature that permits seeding lies strictly inside the survival band |
| Flowers.FlowerClassesBands | flowers.py:23 | every class of `flower_classes` has its seeding band strictly inside its survival band and the given sprite width |
| Shading.SpritesAreUnionMembers | main.py:76 | the sprites the shade pass visits are exactly the members of `flowers.union({butterfly})`: the butterfly's sprite and the sprite of every flower, and nothing else |
| Shading.Shade | main.py:75-79 | the shade of a column is never below -1 |
| Shading.ShadeIsMaximum | main.py:75-79 | after the shade pass a column holds the maximum of -1 and the `y` of every sprite covering it: at least each such `y`, and either -1 or one of them |
| Shading.UncoveredIsSunlit | main.py:75-79 | a column no sprite covers stays at -1 |
| Shading.SunlitIffUncovered | main.py:75-83 | when no sprite has negative `y`, a column is sunlit exactly when no sprite covers it |
| Shading.ShadeDependsOnlyOnMembers | main.py:76 | two sprite lists with the same members give every column the same shade, whatever the order of the set walk |
| Temperature.NewTemp | main.py:82-86 | a sunlit column ends at most 1, a shaded one at least 0 |
| Temperature.NewTempInUnit | main.py:82-86 | for `dt >= 0`, a temperature in [0, 1] stays in [0, 1] |
| Temperature.SunlitWarms | main.py:83-84 | for `dt >= 0` a sunlit column at most 1 never cools; it gains `0.2 * dt` until capped at 1 |
| Temperature.ShadedCools | main.py:85-86 | for `dt >= 0` a shaded column at least 0 never warms; it loses `0.3 * dt` until floored at 0 |
| Temperature.ShadeHeightIrrelevant | main.py:83-86 | only whether a column is sunlit matters, not the height of its shade |
| Lifecycle.SpanSumClipped | main.py:91 | cells outside the array add nothing: the span's sum equals the sum over the span clipped to the array |
| Lifecycle.OffSpanSumsToZero | main.py:91 | a span lying wholly outside the array sums to 0 |
| Lifecycle.OffscreenFlowerDies | main.py:91-93 | a flower wholly off the array has mean 0 and dies exactly when 0 is outside its survival band |
| Lifecycle.SpanSumBounds | main.py:91 | with every temperature in [0, 1], a span's sum lies between 0 and its number of cells |
| Lifecycle.SurvivorsExactly | main.py:89-94 | a flower outlives the death pass if and only if it was live and its mean is inside its band; a survivor keeps all its copies |
| Lifecycle.SurvivorsShrink | main.py:94 | the death pass never adds flowers and keeps every flower's width positive |
| Lifecycle.SurvivorsAppend | main.py:89-94 | one flower's fate does not depend on the others: the pass over a concatenation is the concatenation of the passes |
| Lifecycle.RemoveDeadIsSurvivors | main.py:89-94 | removing the collected dead positions all at once after the loop leaves exactly the survivors |
| Lifecycle.SeedScanExtends | main.py:96-101 | the seeding scan only appends to the flowers seeded before it |
| Lifecycle.SeedScanOnlyInBand | main.py:97-101 | every flower the scan adds is of a class in the table, has `y = 0`, and stands at a cell `x = i` whose temperature is strictly inside that class's seeding band |
| Lifecycle.SeedScanDraws | main.py:97-100 | the scan consumes exactly one draw per (cell, class) pair in band, whatever the draws |
| Lifecycle.EligibleFromCount | main.py:97-99 | the list of candidate flowers, one per (cell, class) pair in band in scan order, has one entry per such pair |
| Lifecycle.SeedScanIsLuckyPairs | main.py:96-101 | for any draws, the scan adds exactly the candidates whose own draw exceeds 0.99: the m-th pair in band takes the m-th draw and seeds its flower at `x = i` iff that draw is above 0.99 |
| Lifecycle.LuckyCount | main.py:100-101 | as many candidates seed as there are draws above 0.99 among the draws they take |
| Lifecycle.LuckyExtremes | main.py:100-101 | with every draw above 0.99 every candidate seeds; with every draw at most 0.99 none does |
| Lifecycle.SeedScanByLuck | main.py:99-101 | with every draw above 0.99 the scan adds exactly one flower per pair in band, of that pair's class at that pair's cell, in scan order; with every draw at most 0.99 it adds nothing |
| Lifecycle.SeedScanCountsHighDraws | main.py:99-101 | the scan adds one flower per draw above 0.99 among the draws it consumed |
| Lifecycle.SeedsSummary | main.py:96-101 | one seeding pass adds exactly the pairs in band whose own draw is above 0.99, consumes one draw per pair in band, adds one flower per high draw, adds every pair's flower when all draws are high and none when all are low, and puts each seeded flower on the ground at a cell inside its seeding band |
| Lifecycle.SeededRedFlowersStartInSurvivalBand | main.py:96-101 | each red flower seeded this tick stands on a cell whose temperature is strictly inside its survival band |
| Motion.DriftSplits | main.py:68-70 | moving for `dt1` then `dt2` at one velocity is moving for `dt1 + dt2` |
| Motion.KeyStepIsPush | main.py:54-65 | each handler moves `dx` by `btn_speed` times +1 (right press, left release), -1 (left press, right release) or 0 |
| Motion.NetPushIsHeldDifference | main.py:54-65 | the net push of a run of key events is (right held) - (left held) |
| Motion.NetPushAppend | main.py:54-65 | net pushes add up over concatenated runs of events |
| Motion.ReplayNet | main.py:54-65 | after a run of handlers `dx` is its start plus `btn_speed` times the net push |
| Motion.ReplayHeld | main.py:54-65 | after a run of handlers `dx` is its start plus `btn_speed * (right held - left held)`; from 0 it is exactly that product |
| Motion.PressThenReleaseRestores | main.py:54-65 | pressing a key, any events, then releasing it leaves `dx` as the events alone would |
| Motion.Butterfly.constructor | main.py:8-13 | the butterfly starts at x = 0, y = 40, at rest, with `btn_speed = 80` |
| Motion.Butterfly.AnimationUpdate | main.py:68-70 | `x' = x + dx * dt`, `y' = y + dy * dt`, velocity unchanged |
| Motion.Butterfly.OnKeyPress | main.py:51-57 | left press subtracts `btn_speed` from `dx`, right press adds it, other keys leave it; position unchanged |
| Motion.Butterfly.OnKeyRelease | main.py:61-65 | left release adds `btn_speed` to `dx`, right release subtracts it; position unchanged |
| Simulation.World.constructor | main.py:10-19 | `shaded` and `temps` both have the window's width and hold 0.0; one red flower at x = 50; `flower_classes` is the table |
| Simulation.World.ShadePass | main.py:74-79 | every column of `shaded` ends at the shade of the flowers and the butterfly; only `shaded` is written, only at indices in the array |
| Simulation.World.TemperaturePass | main.py:81-86 | every column's new temperature is `NewTemp` of its own old temperature and its own shade entry only |
| Simulation.World.SpanTotal | main.py:91 | the loop returns the in-range temperature sum over `range(lo, hi)` |
| Simulation.World.CollectDead | main.py:89-93 | the dead set holds exactly the positions of the flowers whose mean is outside their survival band |
| Simulation.World.DeathPass | main.py:88-94 | the flowers become the survivors of the current temperatures, decided before any removal |
| Simulation.World.SeedPass | main.py:96-101 | the flowers gain exactly the seeded flowers of the current temperatures and draws, and the draws used are counted |
| Simulation.World.StateUpdate | main.py:73-101 | the passes run in order: shade from the old sprites, temperatures from the old temperatures and the new shade, death on the new temperatures, seeding appended after death so new flowers are not judged until the next tick; temperatures in [0, 1] stay there for `dt >= 0`; the butterfly is untouched |

## Left out

- Window creation, `on_draw`, `draw_temps` and the colour bytes they pack: rendering only.
- Image loading, sprite scaling and the image-format check: foreign library calls; sprite widths are inputs instead.
- Closing the window on the Q key: window lifecycle, not simulation state.
- Clock scheduling and `pyglet.app.run`: the host event loop. Only the order of the passes inside one tick is modelled.
- `random.random()`: replaced by an injected stream of draws; no generator is modelled.
- Floating-point rounding: temperatures, `dt` and positions are exact reals, so `0.2 * dt` and the comparisons with 0.99 are exact.
- Python set identity: the flower collection is a sequence and identity is position; iteration order of the set is fixed as list order, which `ShadeDependsOnlyOnMembers` and `SurvivorsAppend` show does not matter for shade or death.
