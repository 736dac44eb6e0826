/** The eight log levels and their ranks (the $levels table of LogManager and Log). */
module Levels {
  import opened Wrappers

  const Names: seq<string> :=
    ["emergency", "alert", "critical", "error", "warning", "notice", "info", "debug"]

  predicate IsLevel(name: string) {
    name in Names
  }

  /** The rank of a level name, 1 (emergency) to 8 (debug); None for any other name. */
  function Rank(name: string): (r: Option<nat>)
    ensures r.Some? <==> IsLevel(name)
    ensures r.Some? ==> 1 <= r.value <= |Names| && Names[r.value - 1] == name
  {
    match name
    case "emergency" => Some(1)
    case "alert" => Some(2)
    case "critical" => Some(3)
    case "error" => Some(4)
    case "warning" => Some(5)
    case "notice" => Some(6)
    case "info" => Some(7)
    case "debug" => Some(8)
    case _ => None
  }
}
