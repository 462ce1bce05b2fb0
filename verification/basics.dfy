/** Small shared vocabulary: an option type, Math.max/Math.min on reals,
    orderings on sequences of years, and the semantics of `new Map(entries)`. */
module Basics {

  /** A JavaScript value that is either a number or `null`/`undefined`. */
  datatype Option<T> = None | Some(value: T)

  /** Math.max of two numbers. */
  function Max(a: real, b: real): (r: real)
    ensures a <= r && b <= r
    ensures r == a || r == b
  {
    if a < b then b else a
  }

  /** Math.min of two numbers. */
  function Min(a: real, b: real): (r: real)
    ensures r <= a && r <= b
    ensures r == a || r == b
  {
    if a < b then a else b
  }

  ghost predicate StrictlyAscending(s: seq<int>)
  {
    forall i, j :: 0 <= i < j < |s| ==> s[i] < s[j]
  }

  ghost predicate Distinct<T>(s: seq<T>)
  {
    forall i, j :: 0 <= i < j < |s| ==> s[i] != s[j]
  }

  /** `new Map(entries)`: every key of an entry is present, and a key maps to
      the value of the LAST entry that carries it (later entries overwrite). */
  function MapOfEntries<V>(entries: seq<(int, V)>): (r: map<int, V>)
    ensures forall key :: key in r <==> exists k :: 0 <= k < |entries| && entries[k].0 == key
    ensures forall k :: 0 <= k < |entries| && (forall j :: k < j < |entries| ==> entries[j].0 != entries[k].0)
                        ==> entries[k].0 in r && r[entries[k].0] == entries[k].1
  {
    if |entries| == 0 then map[]
    else
      var prefix := entries[..|entries| - 1];
      var last := entries[|entries| - 1];
      assert forall k :: 0 <= k < |prefix| ==> prefix[k] == entries[k];
      MapOfEntries(prefix)[last.0 := last.1]
  }

  /** The elements of `s` that do not occur in `excluded`, in their order:
      `s.filter((y) => !excluded.includes(y))`. */
  function Without(s: seq<int>, excluded: seq<int>): (r: seq<int>)
    ensures forall y :: y in r <==> y in s && y !in excluded
    ensures StrictlyAscending(s) ==> StrictlyAscending(r)
    ensures Distinct(s) ==> Distinct(r)
  {
    if |s| == 0 then []
    else
      var rest := Without(s[1..], excluded);
      assert StrictlyAscending(s) ==> forall k :: 0 <= k < |rest| ==> s[0] < rest[k] by {
        if StrictlyAscending(s) {
          forall k | 0 <= k < |rest| ensures s[0] < rest[k] {
            assert rest[k] in s[1..];
            var i :| 0 <= i < |s[1..]| && s[1..][i] == rest[k];
            assert s[i + 1] == rest[k];
          }
        }
      }
      if s[0] in excluded then rest else [s[0]] + rest
  }
}
