// Sequences of events, records and chunk numbers.
module Sequences {
  ghost predicate Distinct<T>(s: seq<T>) {
    forall j: nat, k: nat :: j < k < |s| ==> s[j] != s[k]
  }

  function Front<T>(s: seq<T>): seq<T>
    requires s != []
  {
    s[..|s| - 1]
  }

  function Last<T>(s: seq<T>): T
    requires s != []
  {
    s[|s| - 1]
  }

  /** The sequence without its k-th element. */
  function Without<T>(s: seq<T>, k: nat): seq<T>
    requires k < |s|
  {
    s[..k] + s[k + 1..]
  }
}
