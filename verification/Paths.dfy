/** Paths and named files, as several of the other modules have them. */
module Paths {

  /** A path by its components. */
  type Path = seq<string>

  /** Files with their contents, by name. */
  type Files = map<string, string>
}
