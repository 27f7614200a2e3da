/** The small value types of the draft: directions, colours, points and indices. */
module Geometry {

  /** Cardinal directions, in declaration order (Up = 0, Right = 1, Down = 2, Left = 3). */
  datatype Direction = Up | Right | Down | Left

  /** The direction pointing the other way. The draft declares no such table;
      it exists here so that the symmetry of adjacency rules can be stated. */
  function Opposite(d: Direction): (o: Direction)
    ensures o != d
  {
    match d
    case Up => Down
    case Right => Left
    case Down => Up
    case Left => Right
  }

  /** One channel of an RGBA pixel, as stored in a Uint8ClampedArray. */
  type Byte = b: int | 0 <= b < 256

  /** An RGBA colour: four channels in R, G, B, A order, each 0..255. */
  type Color = c: seq<Byte> | |c| == 4 witness [0, 0, 0, 0]

  /** An (x, y) pair. */
  type Point = (int, int)

  /** A tile is identified by its index into the list of all tiles. */
  type TileIndex = int

  /** The relative frequency of a tile. */
  type FrequencyWeight = int
}
