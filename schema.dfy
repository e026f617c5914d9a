/**
 * The column schemas and the description list are sequences of
 * (key, text) pairs. Both optional entries (the PDF column and its
 * description) are spliced in the same way: after the first entry with a
 * given key, or at the end when no entry has it.
 */
module Schema {
  import opened Wrappers
  import opened Config

  /** The first index whose key is `key` (a `next` over an enumeration, with no default). */
  function FirstKeyIndex(xs: seq<Column>, key: string): (r: Option<nat>)
    ensures r.Some? ==> r.value < |xs| && xs[r.value].0 == key && forall j :: 0 <= j < r.value ==> xs[j].0 != key
    ensures r.None? <==> forall j :: 0 <= j < |xs| ==> xs[j].0 != key
  {
    if xs == [] then None
    else if xs[0].0 == key then Some(0)
    else match FirstKeyIndex(xs[1..], key)
      case None => None
      case Some(i) => Some(i + 1)
  }

  /** An index whose key is `key` with no earlier one is the first. */
  lemma FirstKeyIndexAt(xs: seq<Column>, key: string, i: nat)
    requires i < |xs| && xs[i].0 == key && forall j :: 0 <= j < i ==> xs[j].0 != key
    ensures FirstKeyIndex(xs, key) == Some(i)
  {
  }

  /** `xs` with `x` just after the first entry keyed `key`, or appended when there is none. */
  function Spliced(xs: seq<Column>, key: string, x: Column): seq<Column>
  {
    match FirstKeyIndex(xs, key)
    case Some(i) => xs[..i + 1] + [x] + xs[i + 1..]
    case None => xs + [x]
  }

  /** `seq.insert(i, x)` for an index within the sequence. */
  function InsertAt(xs: seq<Column>, i: nat, x: Column): (r: seq<Column>)
    requires i <= |xs|
    ensures |r| == |xs| + 1 && r[i] == x
    ensures forall j :: 0 <= j < i ==> r[j] == xs[j]
    ensures forall j :: i < j <= |xs| ==> r[j] == xs[j - 1]
  {
    xs[..i] + [x] + xs[i..]
  }

  /**
   * The splice adds exactly one entry, `x`, just after the anchor (or last
   * when there is no anchor), and removing it gives back the original list.
   */
  lemma SplicedShape(xs: seq<Column>, key: string, x: Column)
    ensures |Spliced(xs, key, x)| == |xs| + 1
    ensures FirstKeyIndex(xs, key).Some? ==>
              var i := FirstKeyIndex(xs, key).value;
              Spliced(xs, key, x)[i] == xs[i] && Spliced(xs, key, x)[i + 1] == x &&
              Spliced(xs, key, x)[..i + 1] + Spliced(xs, key, x)[i + 2..] == xs
    ensures FirstKeyIndex(xs, key).None? ==>
              Spliced(xs, key, x)[|xs|] == x && Spliced(xs, key, x)[..|xs|] == xs
  {
    match FirstKeyIndex(xs, key)
    case None =>
    case Some(i) =>
      var s := Spliced(xs, key, x);
      assert s[..i + 1] == xs[..i + 1];
      assert s[i + 2..] == xs[i + 1..];
      assert xs[..i + 1] + xs[i + 1..] == xs;
  }

  /** The entries before the anchor and the anchor itself keep their places; the rest shift by one. */
  lemma SplicedKeepsOrder(xs: seq<Column>, key: string, x: Column)
    ensures forall j :: 0 <= j < |xs| ==>
              Spliced(xs, key, x)[if FirstKeyIndex(xs, key).Some? && j > FirstKeyIndex(xs, key).value then j + 1 else j] == xs[j]
  {
    var s := Spliced(xs, key, x);
    match FirstKeyIndex(xs, key)
    case None =>
      assert forall j :: 0 <= j < |xs| ==> s[j] == xs[j];
    case Some(i) =>
      assert s == xs[..i + 1] + [x] + xs[i + 1..];
      assert forall j :: 0 <= j <= i ==> s[j] == xs[j];
      assert forall j :: i < j < |xs| ==> s[j + 1] == xs[j];
  }
}
