/** What the two engines share about the continuation protocol: the
    observable steps of a run, and the scan that short-circuit evaluation
    performs over a list of verdicts. */
module Protocol {
  import opened JsValues

  /** A condition's predicate was called on a value. Running a predicate
      is the only thing a schema does that a caller can observe besides
      the continuation it picks. */
  datatype Event = Called(check: Value -> bool, arg: Value)

  /** The predicate calls made so far, oldest first. */
  type Log = seq<Event>

  /** The first index at or after `i` whose entry is not `b`, or `|bs|`. */
  function FirstNotFrom(bs: seq<bool>, i: nat, b: bool): (k: nat)
    requires i <= |bs|
    ensures i <= k <= |bs|
    ensures forall j | i <= j < k :: bs[j] == b
    ensures k < |bs| ==> bs[k] != b
    decreases |bs| - i
  {
    if i == |bs| then i
    else if bs[i] != b then i
    else FirstNotFrom(bs, i + 1, b)
  }

  /** How far a short-circuit scan from `i` gets: it examines entries while
      they equal `b` and stops right after the first one that does not.
      The scan examines the entries in `[i, ScanEnd(bs, i, b))`. */
  function ScanEnd(bs: seq<bool>, i: nat, b: bool): (e: nat)
    requires i <= |bs|
    ensures i <= e <= |bs|
    ensures forall j | i <= j < e - 1 :: bs[j] == b
    ensures e < |bs| ==> i < e && bs[e - 1] != b
    ensures (forall j | i <= j < |bs| :: bs[j] == b) ==> e == |bs|
  {
    var k := FirstNotFrom(bs, i, b);
    if k < |bs| then k + 1 else k
  }

  /** A scan from `i` passes over an entry equal to `b`. */
  lemma ScanPasses(bs: seq<bool>, i: nat, b: bool)
    requires i < |bs| && bs[i] == b
    ensures ScanEnd(bs, i, b) == ScanEnd(bs, i + 1, b)
  {
    assert FirstNotFrom(bs, i, b) == FirstNotFrom(bs, i + 1, b);
  }

  /** A scan from `i` stops right after an entry that is not `b`. */
  lemma ScanStops(bs: seq<bool>, i: nat, b: bool)
    requires i < |bs| && bs[i] != b
    ensures ScanEnd(bs, i, b) == i + 1
  {
    assert FirstNotFrom(bs, i, b) == i;
  }

  /** Appending two pieces to a log one after the other appends their
      concatenation. */
  lemma Regroup(log: Log, a: Log, b: Log)
    ensures log + a + b == log + (a + b)
  {
  }
}
