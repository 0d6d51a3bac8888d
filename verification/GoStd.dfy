/** Pieces of Go's standard library. */
module GoStd {
  /** time.Second: durations and instants are counted in nanoseconds. */
  const SECOND: int := 1_000_000_000

  /** strings.Join. */
  function Join(parts: seq<string>, separator: string): string {
    if parts == [] then ""
    else if |parts| == 1 then parts[0]
    else parts[0] + separator + Join(parts[1..], separator)
  }
}
