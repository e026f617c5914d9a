/**
 * The PDF V2 extension: the schema with the `pdf_v2` column, the canonical
 * order of PDF types, and the per-file tally of types.
 */
module Pdf {
  import opened Wrappers
  import opened Text
  import opened Json
  import opened Config
  import opened Schema
  import opened Extract
  import Legend

  const PdfColumn: Column := ("pdf_v2", "PDF V2")
  const PdfColOrder: seq<string> := ["global:risk", "global:additional", "local"]

  /** The Legend entry describing the PDF V2 column. */
  const PdfColumnDescription: Column := ("PDF V2",
    "Suffix extracted from the '" + PdfHazardPrefix + "<keyword>' entry in the "
    + "keyword_list (e.g. 'local', 'global:risk', 'global:additional'). "
    + "Shows '" + NoPdfLabel + "' when no such keyword is present.")

  // ------------------------------------------------------------ schema

  /** `active_columns` over a given base schema: a copy with the PDF column just after `is_global`. */
  method ActiveColumnsOf(base: seq<Column>) returns (cols: seq<Column>)
    ensures cols == Spliced(base, "is_global", PdfColumn)
    ensures |cols| == |base| + 1
  {
    cols := base;
    var idx: int := match FirstKeyIndex(cols, "is_global") case Some(i) => i case None => |cols| - 1;
    cols := InsertAt(cols, idx + 1, PdfColumn);
    SplicedShape(base, "is_global", PdfColumn);
  }

  /** With the base schema, the PDF column becomes the eleventh, between Is Global and Style Name(s). */
  method ActiveColumns() returns (cols: seq<Column>)
    ensures cols == BaseColumns[..10] + [PdfColumn] + BaseColumns[10..]
  {
    cols := ActiveColumnsOf(BaseColumns);
    SplicedIntoBase(BaseColumns);
  }

  lemma SplicedIntoBase(xs: seq<Column>)
    requires xs == BaseColumns
    ensures Spliced(xs, "is_global", PdfColumn) == xs[..10] + [PdfColumn] + xs[10..]
  {
    FirstKeyIndexAt(xs, "is_global", 9);
  }

  // ------------------------------------------------------- sort order

  /** `list.index`: the first position of `t`. */
  function IndexOf(xs: seq<string>, t: string): (r: Option<nat>)
    ensures r.Some? ==> r.value < |xs| && xs[r.value] == t && forall j :: 0 <= j < r.value ==> xs[j] != t
    ensures r.None? <==> t !in xs
  {
    if xs == [] then None
    else if xs[0] == t then Some(0)
    else match IndexOf(xs[1..], t)
      case None => None
      case Some(i) => Some(i + 1)
  }

  /** Known types first in table order, then other types by name, then the "not attached" label. */
  function SortKey(t: string): (int, string)
  {
    if t == NoPdfLabel then (2, "")
    else match IndexOf(PdfColOrder, t)
      case Some(i) => (0, ZeroPad4(i))
      case None => (1, t)
  }

  /** Python's tuple comparison on the (int, str) keys. */
  predicate KeyLess(a: (int, string), b: (int, string))
  {
    a.0 < b.0 || (a.0 == b.0 && Less(a.1, b.1))
  }

  /** Distinct tags get distinct keys, so the order is strict and total on tags. */
  lemma SortKeyInjective(t: string, u: string)
    requires SortKey(t) == SortKey(u)
    ensures t == u
  {
    if t != NoPdfLabel && u != NoPdfLabel {
      match IndexOf(PdfColOrder, t)
      case Some(i) =>
        var j := IndexOf(PdfColOrder, u).value;
        if i != j {
          if i < j { ZeroPad4Ordered(i, j); } else { ZeroPad4Ordered(j, i); }
          LessIrreflexive(ZeroPad4(i));
        }
      case None =>
    }
  }

  lemma KeyLessIsStrictTotal(a: (int, string), b: (int, string), c: (int, string))
    ensures !KeyLess(a, a)
    ensures KeyLess(a, b) && KeyLess(b, c) ==> KeyLess(a, c)
    ensures a != b ==> KeyLess(a, b) || KeyLess(b, a)
  {
    LessIrreflexive(a.1);
    if KeyLess(a, b) && KeyLess(b, c) && a.0 == b.0 == c.0 { LessTransitive(a.1, b.1, c.1); }
    if a != b && a.0 == b.0 { LessTotal(a.1, b.1); }
  }

  /** Comparing the keys of two distinct tags always decides: one is before the other. */
  lemma TagOrderTotal(t: string, u: string)
    requires t != u
    ensures KeyLess(SortKey(t), SortKey(u)) != KeyLess(SortKey(u), SortKey(t))
  {
    if SortKey(t) == SortKey(u) { SortKeyInjective(t, u); }
    KeyLessIsStrictTotal(SortKey(t), SortKey(u), SortKey(t));
    if KeyLess(SortKey(t), SortKey(u)) && KeyLess(SortKey(u), SortKey(t)) {
      KeyLessIsStrictTotal(SortKey(t), SortKey(u), SortKey(t));
    }
  }

  lemma NoPdfLabelIsUnknown()
    ensures NoPdfLabel !in PdfColOrder
  {
    assert |NoPdfLabel| == 22;
  }

  /** The known types come in table order: global:risk, global:additional, local. */
  lemma KnownTypesInTableOrder(i: nat, j: nat)
    requires i < j < |PdfColOrder|
    ensures KeyLess(SortKey(PdfColOrder[i]), SortKey(PdfColOrder[j]))
  {
    NoPdfLabelIsUnknown();
    assert IndexOf(PdfColOrder, PdfColOrder[i]) == Some(i);
    assert IndexOf(PdfColOrder, PdfColOrder[j]) == Some(j);
    ZeroPad4Ordered(i, j);
  }

  /** Known types precede every other type, and every type precedes the "not attached" label. */
  lemma BucketsInOrder(known: string, other: string)
    requires known in PdfColOrder && other !in PdfColOrder && other != NoPdfLabel
    ensures KeyLess(SortKey(known), SortKey(other))
    ensures KeyLess(SortKey(known), SortKey(NoPdfLabel)) && KeyLess(SortKey(other), SortKey(NoPdfLabel))
  {
    NoPdfLabelIsUnknown();
  }

  /** Types outside the table are ordered by name. */
  lemma OtherTypesByName(t: string, u: string)
    requires t !in PdfColOrder && u !in PdfColOrder && t != NoPdfLabel && u != NoPdfLabel
    ensures KeyLess(SortKey(t), SortKey(u)) <==> Less(t, u)
  {
  }

  /**
   * The five tags local, the label, global:risk, global:additional and an
   * unknown one sort as global:risk, global:additional, local, the unknown
   * tag, the label: each key below is less than the next.
   */
  lemma CanonicalOrderExample()
    ensures KeyLess(SortKey("global:risk"), SortKey("global:additional"))
    ensures KeyLess(SortKey("global:additional"), SortKey("local"))
    ensures KeyLess(SortKey("local"), SortKey("unknown:tag"))
    ensures KeyLess(SortKey("unknown:tag"), SortKey(NoPdfLabel))
  {
    KnownTypesInTableOrder(0, 1);
    KnownTypesInTableOrder(1, 2);
    assert "unknown:tag" !in PdfColOrder by { assert |"unknown:tag"| == 11; }
    assert "unknown:tag" != NoPdfLabel by { assert |NoPdfLabel| == 22; }
    BucketsInOrder("local", "unknown:tag");
  }

  // ------------------------------------------------------------ tally

  /** `r.get("pdf_v2", NO_PDF_LABEL)`. */
  function TagOf(row: Row): Json
  {
    if "pdf_v2" in row then row["pdf_v2"] else JStr(NoPdfLabel)
  }

  function Tags(rows: seq<Row>): (ts: seq<Json>)
    ensures |ts| == |rows| && forall i :: 0 <= i < |rows| ==> ts[i] == TagOf(rows[i])
  {
    if rows == [] then [] else Tags(rows[..|rows| - 1]) + [TagOf(rows[|rows| - 1])]
  }

  /** The distinct elements in order of first occurrence. */
  function Dedup(xs: seq<Json>): (d: seq<Json>)
    ensures forall t :: t in d <==> t in xs
  {
    if xs == [] then []
    else
      var d := Dedup(xs[..|xs| - 1]);
      if xs[|xs| - 1] in d then d else d + [xs[|xs| - 1]]
  }

  function Count(xs: seq<Json>, t: Json): nat
  {
    if xs == [] then 0 else Count(xs[..|xs| - 1], t) + (if xs[|xs| - 1] == t then 1 else 0)
  }

  /** The sum of `counts` over the listed types. */
  function SumOver(ts: seq<Json>, counts: map<Json, nat>): nat
  {
    if ts == [] then 0 else SumOver(ts[..|ts| - 1], counts) + (if ts[|ts| - 1] in counts then counts[ts[|ts| - 1]] else 0)
  }

  predicate NoDuplicates(xs: seq<Json>)
  {
    forall i, j :: 0 <= i < j < |xs| ==> xs[i] != xs[j]
  }

  /** The first position of `t` in `xs`. */
  function FirstPos(xs: seq<Json>, t: Json): (k: nat)
    requires t in xs
    ensures k < |xs| && xs[k] == t && forall j :: 0 <= j < k ==> xs[j] != t
  {
    if xs[0] == t then 0 else 1 + FirstPos(xs[1..], t)
  }

  /** Dedup lists every element once, nothing else, and in order of first occurrence. */
  lemma DedupIsFirstOccurrences(xs: seq<Json>)
    ensures NoDuplicates(Dedup(xs))
    ensures forall i, j :: 0 <= i < j < |Dedup(xs)| ==> FirstPos(xs, Dedup(xs)[i]) < FirstPos(xs, Dedup(xs)[j])
  {
    DedupNoDuplicates(xs);
    DedupFirstOrder(xs);
  }

  lemma {:induction false} DedupNoDuplicates(xs: seq<Json>)
    ensures NoDuplicates(Dedup(xs))
  {
    if xs != [] {
      var init := xs[..|xs| - 1];
      var d := Dedup(init);
      DedupNoDuplicates(init);
      if xs[|xs| - 1] !in d {
        var e := d + [xs[|xs| - 1]];
        assert forall i :: 0 <= i < |d| ==> e[i] == d[i];
      }
    }
  }

  lemma {:induction false} DedupFirstOrder(xs: seq<Json>)
    ensures forall i, j :: 0 <= i < j < |Dedup(xs)| ==> FirstPos(xs, Dedup(xs)[i]) < FirstPos(xs, Dedup(xs)[j])
  {
    if xs != [] {
      var init := xs[..|xs| - 1];
      var x := xs[|xs| - 1];
      DedupFirstOrder(init);
      assert init + [x] == xs;
      DedupFirstOrderStep(init, x);
    }
  }

  /** `d` lists elements of `xs` in increasing order of their first position in `xs`. */
  ghost predicate InFirstPosOrder(xs: seq<Json>, d: seq<Json>)
  {
    (forall t :: t in d ==> t in xs) && forall i, j :: 0 <= i < j < |d| ==> FirstPos(xs, d[i]) < FirstPos(xs, d[j])
  }

  lemma DedupFirstOrderStep(init: seq<Json>, x: Json)
    requires forall i, j :: 0 <= i < j < |Dedup(init)| ==> FirstPos(init, Dedup(init)[i]) < FirstPos(init, Dedup(init)[j])
    ensures InFirstPosOrder(init + [x], Dedup(init + [x]))
  {
    var d := Dedup(init);
    DedupSnoc(init, x);
    assert InFirstPosOrder(init, d);
    OrderInPrefix(init, x, d);
    if x !in d {
      DedupAppendOrder(init + [x], d, x, d + [x]);
    }
  }

  /** Appending an element to `xs` keeps the first positions of the elements already there. */
  lemma OrderInPrefix(init: seq<Json>, x: Json, d: seq<Json>)
    requires InFirstPosOrder(init, d)
    ensures InFirstPosOrder(init + [x], d)
    ensures x !in init ==> forall t :: t in d ==> FirstPos(init + [x], t) < FirstPos(init + [x], x)
  {
    forall t | t in init ensures FirstPos(init + [x], t) == FirstPos(init, t) {
      FirstPosPrefix(init, x, t);
    }
    if x !in init { FirstPosLast(init, x); }
  }

  /** Appending a new last element keeps the first-position order of `d + [x]` in `xs`. */
  lemma DedupAppendOrder(xs: seq<Json>, d: seq<Json>, x: Json, e: seq<Json>)
    requires e == d + [x] && x in xs
    requires InFirstPosOrder(xs, d)
    requires forall t :: t in d ==> FirstPos(xs, t) < FirstPos(xs, x)
    ensures InFirstPosOrder(xs, e)
  {
    forall i, j | 0 <= i < j < |e| ensures FirstPos(xs, e[i]) < FirstPos(xs, e[j]) {
      assert e[i] == d[i] && d[i] in d;
      if j < |d| { assert e[j] == d[j]; }
    }
  }

  lemma {:induction false} FirstPosPrefix(init: seq<Json>, x: Json, t: Json)
    requires t in init
    ensures FirstPos(init + [x], t) == FirstPos(init, t)
  {
    if init[0] != t {
      assert (init + [x])[1..] == init[1..] + [x];
      FirstPosPrefix(init[1..], x, t);
    }
  }

  lemma FirstPosLast(init: seq<Json>, x: Json)
    requires x !in init
    ensures FirstPos(init + [x], x) == |init|
  {
    assert forall j :: 0 <= j < |init| ==> (init + [x])[j] != x;
  }

  /** Counting every listed type once adds up to the number of elements. */
  lemma {:induction false} DedupCountsSum(xs: seq<Json>, counts: map<Json, nat>)
    requires forall t :: t in counts <==> t in xs
    requires forall t :: t in counts ==> counts[t] == Count(xs, t)
    ensures SumOver(Dedup(xs), counts) == |xs|
  {
    SumOfCounts(xs, Dedup(xs));
    DedupIsFirstOccurrences(xs);
    SumOverEqual(Dedup(xs), counts, xs);
  }

  /** The sum over `ds` of the counts in `xs`. */
  function SumCount(ds: seq<Json>, xs: seq<Json>): nat
  {
    if ds == [] then 0 else SumCount(ds[..|ds| - 1], xs) + Count(xs, ds[|ds| - 1])
  }

  lemma {:induction false} SumOverEqual(ds: seq<Json>, counts: map<Json, nat>, xs: seq<Json>)
    requires forall t :: t in ds ==> t in counts && counts[t] == Count(xs, t)
    ensures SumOver(ds, counts) == SumCount(ds, xs)
  {
    if ds != [] {
      SumOverEqual(ds[..|ds| - 1], counts, xs);
    }
  }

  lemma {:induction false} SumCountSnoc(ds: seq<Json>, xs: seq<Json>, x: Json)
    ensures SumCount(ds, xs + [x]) == SumCount(ds, xs) + Count(ds, x)
  {
    if ds != [] {
      SumCountSnoc(ds[..|ds| - 1], xs, x);
      CountSnoc(xs, x, ds[|ds| - 1]);
    }
  }

  lemma {:induction false} CountAbsent(xs: seq<Json>, t: Json)
    requires t !in xs
    ensures Count(xs, t) == 0
  {
    if xs != [] { CountAbsent(xs[..|xs| - 1], t); }
  }

  lemma {:induction false} CountOfDistinct(ds: seq<Json>, t: Json)
    requires NoDuplicates(ds) && t in ds
    ensures Count(ds, t) == 1
  {
    var init := ds[..|ds| - 1];
    if ds[|ds| - 1] == t {
      assert forall k :: 0 <= k < |init| ==> init[k] != t by {
        forall k | 0 <= k < |init| ensures init[k] != t { assert init[k] == ds[k]; }
      }
      CountAbsent(init, t);
    } else {
      CountOfDistinct(init, t);
    }
  }

  lemma {:induction false} SumOfCounts(xs: seq<Json>, ds: seq<Json>)
    requires ds == Dedup(xs)
    ensures SumCount(ds, xs) == |xs|
  {
    if xs != [] {
      var init := xs[..|xs| - 1];
      var x := xs[|xs| - 1];
      var d := Dedup(init);
      assert init + [x] == xs;
      SumOfCounts(init, d);
      DedupIsFirstOccurrences(init);
      if x in d {
        SumCountSnoc(d, init, x);
        CountOfDistinct(d, x);
      } else {
        SumCountSnoc(d, init, x);
        CountAbsent(d, x);
        CountAbsent(init, x);
        assert (d + [x])[..|d|] == d;
      }
    }
  }

  lemma CountSnoc(xs: seq<Json>, x: Json, t: Json)
    ensures Count(xs + [x], t) == Count(xs, t) + (if x == t then 1 else 0)
  {
    assert (xs + [x])[..|xs|] == xs;
  }

  lemma DedupSnoc(xs: seq<Json>, x: Json)
    ensures Dedup(xs + [x]) == if x in Dedup(xs) then Dedup(xs) else Dedup(xs) + [x]
  {
    assert (xs + [x])[..|xs|] == xs;
  }

  /** The tally after `seen`: the distinct tags in first-occurrence order and a positive count per tag. */
  ghost predicate IsTally(seen: seq<Json>, allTypes: seq<Json>, counts: map<Json, nat>)
  {
    && allTypes == Dedup(seen)
    && (forall t :: t in counts <==> t in seen)
    && (forall t :: t in counts ==> counts[t] == Count(seen, t) && counts[t] >= 1)
  }

  /** `counts[tag] = counts.get(tag, 0) + 1`. */
  function Bump(counts: map<Json, nat>, tag: Json): (c: map<Json, nat>)
    ensures tag in c && c[tag] == (if tag in counts then counts[tag] else 0) + 1
    ensures forall t :: t in c <==> t in counts || t == tag
    ensures forall t :: t in counts && t != tag ==> c[t] == counts[t]
  {
    counts[tag := (if tag in counts then counts[tag] else 0) + 1]
  }

  /** The type list after one more tag: appended when new, unchanged when already seen. */
  lemma TallyTypesStep(seen: seq<Json>, tag: Json, allTypes: seq<Json>)
    requires allTypes == Dedup(seen)
    ensures (if tag in allTypes then allTypes else allTypes + [tag]) == Dedup(seen + [tag])
  {
    DedupSnoc(seen, tag);
  }

  /** The counts after one more tag: one more for `tag`, the others unchanged. */
  lemma {:induction false} TallyCountsStep(seen: seq<Json>, tag: Json, counts: map<Json, nat>)
    requires forall t :: t in counts <==> t in seen
    requires forall t :: t in counts ==> counts[t] == Count(seen, t) && counts[t] >= 1
    ensures forall t :: t in Bump(counts, tag) <==> t in seen + [tag]
    ensures forall t :: t in Bump(counts, tag) ==> Bump(counts, tag)[t] == Count(seen + [tag], t) && Bump(counts, tag)[t] >= 1
  {
    var c := Bump(counts, tag);
    CountSnoc(seen, tag, tag);
    if tag !in seen { CountAbsent(seen, tag); }
    forall t | t in c ensures c[t] == Count(seen + [tag], t) && c[t] >= 1 {
      CountSnoc(seen, tag, t);
    }
  }

  /** One iteration of the tally keeps it equal to the first occurrences and counts of the tags seen. */
  lemma TallyStep(seen: seq<Json>, tag: Json, allTypes: seq<Json>, counts: map<Json, nat>)
    requires IsTally(seen, allTypes, counts)
    ensures IsTally(seen + [tag], if tag in allTypes then allTypes else allTypes + [tag], Bump(counts, tag))
  {
    TallyTypesStep(seen, tag, allTypes);
    TallyCountsStep(seen, tag, counts);
  }

  /** `collect_pdf_data`: the distinct tags in order of first appearance and how often each occurs. */
  method CollectPdfData(rows: seq<Row>) returns (allTypes: seq<Json>, counts: map<Json, nat>)
    ensures allTypes == Dedup(Tags(rows))
    ensures forall t :: t in counts <==> t in Tags(rows)
    ensures forall t :: t in counts ==> counts[t] == Count(Tags(rows), t) && counts[t] >= 1
  {
    ghost var tags := Tags(rows);
    allTypes := [];
    counts := map[];
    var i := 0;
    while i < |rows|
      invariant 0 <= i <= |rows|
      invariant IsTally(tags[..i], allTypes, counts)
    {
      var tag := TagOf(rows[i]);
      assert IsTally(tags[..i + 1], if tag in allTypes then allTypes else allTypes + [tag], Bump(counts, tag)) by {
        assert tags[..i + 1] == tags[..i] + [tag];
        TallyStep(tags[..i], tag, allTypes, counts);
      }
      counts := Bump(counts, tag);
      if tag !in allTypes {
        allTypes := allTypes + [tag];
      }
      i := i + 1;
    }
    assert tags[..|rows|] == tags;
  }

  /**
   * A tally of `tags` in the form `collect_pdf_data` returns covers every tag exactly once
   * and lists each distinct tag once, in first-occurrence order.
   */
  lemma TallySummary(tags: seq<Json>, allTypes: seq<Json>, counts: map<Json, nat>)
    requires allTypes == Dedup(tags)
    requires forall t :: t in counts <==> t in tags
    requires forall t :: t in counts ==> counts[t] == Count(tags, t)
    ensures SumOver(allTypes, counts) == |tags|
    ensures NoDuplicates(allTypes)
    ensures forall t :: t in allTypes <==> t in counts
    ensures forall i, j :: 0 <= i < j < |allTypes| ==> FirstPos(tags, allTypes[i]) < FirstPos(tags, allTypes[j])
  {
    DedupCountsSum(tags, counts);
    DedupIsFirstOccurrences(tags);
  }

  /** A row without a `pdf_v2` entry is counted under the "not attached" label. */
  lemma MissingTagCountsAsUnattached(rows: seq<Row>, i: nat)
    requires i < |rows| && "pdf_v2" !in rows[i]
    ensures JStr(NoPdfLabel) in Tags(rows)
  {
    assert Tags(rows)[i] == JStr(NoPdfLabel);
  }

  /** The tag collected from an extracted record is the record's `pdf_v2`, so it is never the missing-key default. */
  lemma RecordTag(r: Record)
    ensures TagOf(AsDict(r)) == JStr(r.pdfV2)
  {
  }

  /** The tag collected from an extracted layer is the PDF tag of its keywords. */
  lemma ExtractedTag(layer: seq<Member>)
    requires ExtractRow(layer).Ok?
    ensures TagOf(AsDict(ExtractRow(layer).value)) == JStr(PdfTag(KeywordItemsOf(layer).value))
  {
    RecordTag(ExtractRow(layer).value);
  }

  // ------------------------------------------------------------ legend

  /** The PDF V2 description goes into the Legend right after the tenth entry, "Is Global". */
  lemma PdfLegendEntry()
    ensures Legend.DescriptionsFor(Some(PdfColumnDescription))
      == BaseColumnDescriptions[..10] + [PdfColumnDescription] + BaseColumnDescriptions[10..]
    ensures BaseColumnDescriptions[9].0 == "Is Global"
  {
    Legend.DescriptionsPlacement(Some(PdfColumnDescription), BaseColumnDescriptions);
  }
}
