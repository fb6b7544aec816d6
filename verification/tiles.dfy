/** MODIS sinusoidal tile identifiers `h##v##`, and the exclusion-tile
    default that replaces a missing static raster. */
module Tiles {
  import opened Text
  import opened Errors

  /** `re.match('^[h][0-9]{2}[v][0-9]{2}', tile)`: the name STARTS with
      h##v##; anything may follow. */
  predicate HasTilePrefix(tile: string)
  {
    && |tile| >= 6
    && tile[0] == 'h' && IsDigit(tile[1]) && IsDigit(tile[2])
    && tile[3] == 'v' && IsDigit(tile[4]) && IsDigit(tile[5])
  }

  /** `tile[3:]`, the vertical part of the tile name ("v05" of "h09v05");
      empty for names shorter than three characters, as Python slicing is. */
  function VerticalPart(tile: string): (v: string)
    ensures |tile| >= 3 ==> tile == tile[..3] + v
    ensures |tile| < 3 ==> v == ""
  {
    if |tile| >= 3 then tile[3..] else ""
  }

  /** Whether the tile lies in a row without static coverage. */
  predicate IsExclusionTile(tile: string, exclusions: set<string>)
  {
    VerticalPart(tile) in exclusions
  }

  /** The `try: read ... except FileNotFoundError:` pattern of the static
      loaders: a missing file is replaced by `fallback` on an exclusion tile
      and re-raised on any other tile; every other outcome passes through. */
  function WithExclusionDefault<T>(read: Result<T>, exclusionTile: bool, fallback: T): (r: Result<T>)
    ensures read.Ok? ==> r == read
    ensures read.Err? && read.error.FileNotFound? ==>
      r == (if exclusionTile then Ok(fallback) else read)
    ensures read.Err? && !read.error.FileNotFound? ==> r == read
    ensures r.Ok? <==> read.Ok? || (exclusionTile && read.error.FileNotFound?)
  {
    match read
    case Ok(_) => read
    case Err(FileNotFound(_)) => if exclusionTile then Ok(fallback) else read
    case Err(_) => read
  }

  lemma TilePrefixExamples()
    ensures HasTilePrefix("h09v05")
    ensures HasTilePrefix("h09v05.061")
    ensures !HasTilePrefix("H09v05")
    ensures !HasTilePrefix("h9v05")
    ensures VerticalPart("h09v05") == "v05"
  {
  }
}
