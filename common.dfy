/** Failure-carrying values shared by every module, and the one string search
    that the patterns, the path parser and the splitter all need. */
module Common {

  datatype Option<+T> = None | Some(value: T)

  /** A Python call that either returns a value or raises an exception. */
  datatype Result<+T, +E> = Ok(value: T) | Err(error: E)

  /** The first index at or after `from` that holds `c`, or `|s|` when there is none. */
  function IndexFrom(s: string, c: char, from: nat): (r: nat)
    requires from <= |s|
    ensures from <= r <= |s|
    ensures forall t :: from <= t < r ==> s[t] != c
    ensures r < |s| ==> s[r] == c
    decreases |s| - from
  {
    if from == |s| || s[from] == c then from else IndexFrom(s, c, from + 1)
  }

  /** `IndexFrom` is the only index with its two properties. */
  lemma IndexFromUnique(s: string, c: char, from: nat, r: nat)
    requires from <= r <= |s|
    requires forall t :: from <= t < r ==> s[t] != c
    requires r < |s| ==> s[r] == c
    ensures IndexFrom(s, c, from) == r
  {
  }

  /** Searching a slice is searching the whole string from the slice's start,
      stopped at its end. */
  lemma IndexFromSlice(s: string, c: char, lo: nat, hi: nat)
    requires lo <= hi <= |s|
    ensures var r := IndexFrom(s, c, lo);
            IndexFrom(s[lo..hi], c, 0) == (if r < hi then r else hi) - lo
  {
    var r := IndexFrom(s, c, lo);
    IndexFromUnique(s[lo..hi], c, 0, (if r < hi then r else hi) - lo);
  }
}
