/** Small definitions several modules share. */
module Common {

  datatype Option<+T> = None | Some(value: T)

  /** An edge of a pipeline definition; the handle says for which outcomes of its source it is taken. */
  datatype Edge = Edge(id: string, source: string, sourceHandle: string, target: string)

  /** Every element occurs once. */
  ghost predicate NoRepeats(s: seq<string>) {
    forall i, j :: 0 <= i < j < |s| ==> s[i] != s[j]
  }

  function Removed(ids: seq<string>, x: string): seq<string> {
    if ids == [] then []
    else
      var rest := Removed(ids[..|ids| - 1], x);
      if ids[|ids| - 1] == x then rest else rest + [ids[|ids| - 1]]
  }

  ghost predicate InTimeOrder(times: seq<int>) {
    forall i, j :: 0 <= i < j < |times| ==> times[i] <= times[j]
  }

  function Min(a: int, b: int): int { if a < b then a else b }

  function Max(a: int, b: int): int { if a < b then b else a }

  /** `Math.ceil`. */
  function Ceiling(x: real): int { -(-x).Floor }
}
