/** The few .NET runtime notions the storefront's handlers lean on:
    a nullable result, the exceptions that escape a handler, and
    List<T>.Find (first element that satisfies a predicate). */
module Runtime {

  datatype Option<+T> = None | Some(value: T)

  /** Exceptions the modelled code can throw and does not catch. */
  datatype Exception =
    | ArgumentNullException   // int.Parse(null)
    | ArgumentException       // Path.GetFullPath on an empty path or one holding '\0'
    | FormatException         // malformed Guid or integer text
    | OverflowException       // integer text outside the Int32 range

  /** A call that either returns a value or throws. */
  datatype Outcome<+T> = Returns(value: T) | Throws(exception: Exception)

  /** Index of the first element of xs that satisfies p, if any. */
  function FindIndex<T>(xs: seq<T>, p: T -> bool): (r: Option<nat>)
    ensures r.None? <==> forall i :: 0 <= i < |xs| ==> !p(xs[i])
    ensures r.Some? ==> r.value < |xs| && p(xs[r.value])
    ensures r.Some? ==> forall j :: 0 <= j < r.value ==> !p(xs[j])
    decreases |xs|
  {
    if xs == [] then None
    else if p(xs[0]) then Some(0)
    else
      match FindIndex(xs[1..], p)
      case None => None
      case Some(k) => Some(k + 1)
  }

  /** List<T>.Find: the first element of xs that satisfies p, or null. */
  function Find<T>(xs: seq<T>, p: T -> bool): (r: Option<T>)
    ensures r.None? <==> forall i :: 0 <= i < |xs| ==> !p(xs[i])
    ensures r.Some? ==> r.value in xs && p(r.value)
  {
    match FindIndex(xs, p)
    case None => None
    case Some(i) => Some(xs[i])
  }

  /** Find returns the element at position i exactly when xs[i] is the
      first element that satisfies p. */
  lemma FindFirst<T>(xs: seq<T>, p: T -> bool, i: nat)
    requires i < |xs| && p(xs[i])
    requires forall j :: 0 <= j < i ==> !p(xs[j])
    ensures Find(xs, p) == Some(xs[i])
  {
  }

  /** When at most one element satisfies p, Find returns it. */
  lemma FindUnique<T>(xs: seq<T>, p: T -> bool, i: nat)
    requires i < |xs| && p(xs[i])
    requires forall j :: 0 <= j < |xs| && j != i ==> !p(xs[j])
    ensures Find(xs, p) == Some(xs[i])
  {
    FindFirst(xs, p, i);
  }
}
