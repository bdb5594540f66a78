/** Reading a report line by line: bufio.Scanner with a buffer of 1 MiB (agent/internal/runner/coverage.go). */
module Scanner {
  const MAX_LINE := 1024 * 1024

  /** strings.TrimSpace, as an unknown function. */
  type Trim = string -> string

  /** Every line, counted with its carriage return and without its newline, leaves room in the buffer. A longer
      one ends the scan with an error. */
  predicate Scannable(raw: seq<string>) {
    forall k | 0 <= k < |raw| :: |raw[k]| < MAX_LINE
  }

  function Trimmed(raw: seq<string>, trim: Trim): (lines: seq<string>)
    ensures |lines| == |raw| && forall k | 0 <= k < |raw| :: lines[k] == trim(raw[k])
  {
    seq(|raw|, k requires 0 <= k < |raw| => trim(raw[k]))
  }
}
