# WaveFunctionCollapse draft: pixel buffer, weights and adjacency stubs

This project models the logic present in `main.ts` of an early draft of a
Wave Function Collapse image generator. The draft has no tile extraction,
propagation or collapse loop yet; what it does have is:

- pixel access on a browser `ImageData`: `get([x, y])` reads the four RGBA
  bytes of a pixel from the flat, row-major byte buffer at offset
  `4 * (y * width + x)`, and `set([x, y], c)` writes the four channels back in
  place with a loop (module `Pixels`, class `ImageData`);
- `FrequencyHints`, a read-only table of tile weights with cached sums
  (module `Weights`);
- `AdjacencyRules`, whose `isAllowed` allows every placement (module
  `Adjacency`);
- the `Direction`, `Color`, `Point`, `TileIndex` and `FrequencyWeight` types
  (module `Geometry`), and `Option` for JavaScript's `undefined` (module
  `Wrappers`).

`Set` is proved against the value function `Written`, the buffer after the
write; the lemmas about `Written` give read-after-write, the frame (other
pixels unchanged), idempotence, and the bounds and disjointness of pixel
byte ranges. `Geometry.Opposite` is not in the draft; it exists only to state
the symmetry of adjacency rules.

## Model

| member | source | states |
|---|---|---|
| `Pixels.ImageData.Get` | main.ts:92-95 | the colour of pixel p is the four consecutive bytes starting at `4 * (y * width + x)`, in R, G, B, A order; reading changes nothing |
| `Pixels.ImageData.Set` | main.ts:96-100 | after the loop the buffer equals `Written` of the old buffer, so reading p gives the colour written and every pixel whose byte range is disjoint from p's reads as before |
| `Pixels.Written` | main.ts:96-100 | a write never changes the length of the buffer |
| `Pixels.OffsetInBuffer` | main.ts:92-99 | for a pixel inside the image, every byte index get and set touch lies in `[0, 4 * width * height)` |
| `Pixels.DistinctPixelsDisjoint` | main.ts:93 | two distinct pixels inside the image own disjoint four-byte ranges |
| `Pixels.ReadAfterWrite` | main.ts:92-100 | reading the four bytes just written gives the colour written |
| `Pixels.WriteFrame` | main.ts:96-100 | a write leaves every four-byte range disjoint from its own unchanged |
| `Pixels.WriteIdempotent` | main.ts:96-100 | writing the same colour at the same pixel twice leaves the buffer as writing it once |
| `Pixels.GetAfterSet` | main.ts:92-100 | after setting pixel p to c, pixel q of the image reads c if q is p and its old colour otherwise |
| `Weights.FrequencyHints.WeightForTile` | main.ts:71-73 | returns `tileWeights[index]` exactly when the index is inside the table, and `undefined` (None) otherwise |
| `Weights.FrequencyHints.SumWeight` | main.ts:74-75 | returns the cached weight sum field |
| `Weights.WeightAtMostSumWeight` | main.ts:69-75 | when the cache holds sum(w[n]) of count weights, no tile's weight exceeds `sumWeight` |
| `Weights.SumWeightAtLeastTileCount` | main.ts:69-75 | when the cache holds sum(w[n]) of count weights, `sumWeight` is at least the number of tiles |
| `Weights.FrequencyHints.SumWeightTimesLogWeight` | main.ts:76-77 | as written, answers the same value as the `sumWeight` getter |
| `Weights.FrequencyHints.CachedSumWeightTimesLogWeight` | main.ts:76-77 | answers the cached sum(w[n] * log(w[n])) field, as the getter's documentation says |
| `Weights.SumWeightTimesLogWeightIgnoresCache` | main.ts:76-77 | for one tile of weight 1 (cache 0) the as-written getter answers 1, not the cached 0 |
| `Adjacency.AdjacencyRules.IsAllowed` | main.ts:83-85 | every tile may be placed next to every tile in every direction |
| `Adjacency.IsAllowedSymmetric` | main.ts:83-85 | allowing b in direction d from a is the same as allowing a in the opposite direction from b |

## Left out

- Pixels.ImageData.Get: a read whose four-byte range leaves the buffer yields `undefined` channels, which the declared return type `Color` does not admit; the model requires the range to lie in the buffer.
- Pixels.ImageData.Set: clamping and rounding of out-of-range or fractional channel values by `Uint8ClampedArray` is not modelled; channels are integers 0..255 (`Geometry.Byte`), as the `Color` type's comment states.
- Coordinates, weights and indices are JavaScript numbers (doubles); the model uses unbounded integers, so fractional or huge values are not modelled.
- The cached sum(w[n] * log(w[n])) is floating point and carried as an opaque `real`; nothing is stated about its arithmetic.
- `FrequencyHints` has no constructor in the draft; its fields are parameters of the datatype, and the consistency of the caches is an explicit assumption (`SumCacheHolds`, `WeightsAreCounts`) of the lemmas that need it.
- The `ImageData` constructor stands for the browser's allocation of a zero-filled buffer; filling it from an image (`getImageData`) is browser I/O.
- The configuration panel and global `config` object (main.ts:3-15): user interface.
- Image loading and canvas drawing (main.ts:17-42): browser I/O.
- The commented-out grayscale routine (main.ts:102-114): dead code.
- `parseImage` (main.ts:116-117): its body is empty.
- The `TileColorMapping` type (main.ts:60): declared but unused.

## Findings

| source | as written | input that shows it | evidently intended | confidence | as-written member | corrected member |
|---|---|---|---|---|---|---|
| main.ts:76-77 | the `sumWeightTimesLogWeight` getter returns `_sumWeight` | one tile of weight 1: `_sumWeight` = 1, `_sumWeightTimesLogWeight` = 1 * log(1) = 0, getter answers 1 | return `_sumWeightTimesLogWeight`, the cache its comment describes | high, not executed | `Weights.FrequencyHints.SumWeightTimesLogWeight` (exhibited by `Weights.SumWeightTimesLogWeightIgnoresCache`) | `Weights.FrequencyHints.CachedSumWeightTimesLogWeight` |
