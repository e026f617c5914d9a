/**
 * `extract_row`: flatten one matched layer into a record of display
 * fields. Missing pieces default to "" or to the "not attached" label;
 * the few shapes that make the Python code raise are error results.
 */
module Extract {
  import opened Wrappers
  import opened Text
  import opened Json
  import opened Config
  import opened Bbox
  import Scanner

  /** A record as a Python dict: field key to value. */
  type Row = map<string, Json>

  /** The fields of the dict `extract_row` returns. */
  datatype Record = Record(
    name: Json, title: Json, abstractText: string, queryable: Json, crs: string,
    westBound: Json, eastBound: Json, northBound: Json, southBound: Json,
    isGlobal: string, global: bool, pdfV2: string, styleNames: string, keywordList: string)

  /** The exceptions `extract_row` can raise on malformed layers. */
  datatype ExtractError =
    | StyleNameNotString   // `", ".join` over a style `name` that is not a string
    | CrsItemNotString     // `", ".join` over a `CRS` list element that is not a string
    | KeywordsNotIterable  // iterating a truthy `keyword_list` that is a number or `True`
    | AbstractNotString    // `.strip()` on a truthy `abstract` that is not a string

  const RowKeys: set<string> := {
    "name", "title", "abstract", "queryable", "crs", "west_bound", "east_bound",
    "north_bound", "south_bound", "is_global", "_global", "pdf_v2", "style_names", "keyword_list"
  }

  /** The dict itself, under the keys `extract_row` uses. */
  function AsDict(r: Record): (d: Row)
    ensures d.Keys == RowKeys
    ensures d["is_global"] == JStr(r.isGlobal) && d["_global"] == JBool(r.global) && d["pdf_v2"] == JStr(r.pdfV2)
  {
    map[
      "name" := r.name,
      "title" := r.title,
      "abstract" := JStr(r.abstractText),
      "queryable" := r.queryable,
      "crs" := JStr(r.crs),
      "west_bound" := r.westBound,
      "east_bound" := r.eastBound,
      "north_bound" := r.northBound,
      "south_bound" := r.southBound,
      "is_global" := JStr(r.isGlobal),
      "_global" := JBool(r.global),
      "pdf_v2" := JStr(r.pdfV2),
      "style_names" := JStr(r.styleNames),
      "keyword_list" := JStr(r.keywordList)
    ]
  }

  /** `layer.get(key) or default`. */
  function GetOrFalsy(layer: seq<Member>, key: string, default: Json): Json
  {
    var v := GetOr(layer, key, JNull);
    if Truthy(v) then v else default
  }

  /** The members of `ex_geographic_bounding_box`, or none when it is missing or not a dict. */
  function BboxMembers(layer: seq<Member>): seq<Member>
  {
    var b := GetOrFalsy(layer, "ex_geographic_bounding_box", JObj([]));
    if b.JObj? then b.members else []
  }

  /** The `name` of every dict among the styles, in order; `None` when one of them is not a string. */
  function StyleNames(styles: seq<Json>): (r: Option<seq<string>>)
    ensures r.None? <==> exists i :: 0 <= i < |styles| && styles[i].JObj? && !GetOr(styles[i].members, "name", JStr("")).JStr?
  {
    if styles == [] then Some([])
    else
      var rest := StyleNames(styles[1..]);
      assert forall i :: 1 <= i < |styles| ==> styles[i] == styles[1..][i - 1];
      var head := styles[0];
      if head.JObj? then
        match GetOr(head.members, "name", JStr(""))
        case JStr(n) => if rest.Some? then Some([n] + rest.value) else None
        case _ => None
      else rest
  }

  /** The strings of a list, `None` when some element is not a string. */
  function AllStrings(xs: seq<Json>): (r: Option<seq<string>>)
    ensures r.None? <==> exists i :: 0 <= i < |xs| && !xs[i].JStr?
    ensures r.Some? ==> |r.value| == |xs| && forall i :: 0 <= i < |xs| ==> xs[i] == JStr(r.value[i])
  {
    if xs == [] then Some([])
    else
      var rest := AllStrings(xs[1..]);
      assert forall i :: 1 <= i < |xs| ==> xs[i] == xs[1..][i - 1];
      if xs[0].JStr? && rest.Some? then Some([xs[0].s] + rest.value) else None
  }

  function StrItems(xs: seq<Json>): (r: seq<string>)
    ensures |r| == |xs| && forall i :: 0 <= i < |xs| ==> r[i] == Str(xs[i])
  {
    if xs == [] then [] else [Str(xs[0])] + StrItems(xs[1..])
  }

  /** The single-character strings of `s`, as iterating a Python string yields them. */
  function Characters(s: string): (r: seq<Json>)
    ensures |r| == |s| && forall i :: 0 <= i < |s| ==> r[i] == JStr([s[i]])
  {
    if s == [] then [] else [JStr([s[0]])] + Characters(s[1..])
  }

  function KeyItems(ms: seq<Member>): (r: seq<Json>)
    ensures |r| == |ms| && forall i :: 0 <= i < |ms| ==> r[i] == JStr(ms[i].key)
  {
    if ms == [] then [] else [JStr(ms[0].key)] + KeyItems(ms[1..])
  }

  /**
   * `for k in kw`, after `kw = layer.get("keyword_list") or []`: a list
   * yields its elements, a string its characters, a dict its keys; a truthy
   * number or `True` cannot be iterated.
   */
  function Iterate(kw: Json): Option<seq<Json>>
  {
    if !Truthy(kw) then Some([])
    else
      match kw
      case JArr(xs) => Some(xs)
      case JStr(s) => Some(Characters(s))
      case JObj(ms) => Some(KeyItems(ms))
      case _ => None
  }

  /** The style names of a `style` list; a `style` value that is not a list gives none. */
  function StyleNamesOf(layer: seq<Member>): (r: Option<seq<string>>)
    ensures r.None? <==> BadStyle(layer)
  {
    var styles := GetOrFalsy(layer, "style", JArr([]));
    if styles.JArr? then StyleNames(styles.items) else Some([])
  }

  /** The strings of a `CRS` list; a `CRS` value that is not a list gives none. */
  function CrsItemsOf(layer: seq<Member>): (r: Option<seq<string>>)
    ensures r.None? <==> BadCrs(layer)
  {
    var crs := GetOrFalsy(layer, "CRS", JArr([]));
    if crs.JArr? then AllStrings(crs.items) else Some([])
  }

  /** The suffix of the first string keyword whose lower-cased form starts with the PDF prefix. */
  function PdfTag(kws: seq<Json>): string
  {
    if kws == [] then NoPdfLabel
    else if kws[0].JStr? && StartsWith(Lower(kws[0].s), PdfHazardPrefix) then Lower(kws[0].s)[|PdfHazardPrefix|..]
    else PdfTag(kws[1..])
  }

  /** Whether keyword `k` is one the PDF tag can be taken from. */
  predicate IsPdfKeyword(k: Json)
  {
    k.JStr? && StartsWith(Lower(k.s), PdfHazardPrefix)
  }

  /** `", ".join(str(k) for k in kw)` for a list, `str(kw)` otherwise. */
  function KeywordText(kw: Json): string
  {
    if kw.JArr? then Join(", ", StrItems(kw.items)) else Str(kw)
  }

  /** `for k in kw` over the falsy-defaulted `keyword_list`; `None` when it cannot be iterated. */
  function KeywordItemsOf(layer: seq<Member>): (r: Option<seq<Json>>)
    ensures r.None? <==> BadKeywords(layer)
  {
    Iterate(GetOrFalsy(layer, "keyword_list", JArr([])))
  }

  /**
   * The exception `extract_row` raises, if any. The Python code evaluates
   * the style names, the CRS text, the keyword iteration and the abstract
   * in that order, and the first that raises is the error.
   */
  function RowError(layer: seq<Member>): (e: Option<ExtractError>)
    ensures e == Some(StyleNameNotString) <==> BadStyle(layer)
    ensures e == Some(CrsItemNotString) <==> !BadStyle(layer) && BadCrs(layer)
    ensures e == Some(KeywordsNotIterable) <==> !BadStyle(layer) && !BadCrs(layer) && BadKeywords(layer)
    ensures e == Some(AbstractNotString) <==> !BadStyle(layer) && !BadCrs(layer) && !BadKeywords(layer) && BadAbstract(layer)
    ensures e.None? <==> !BadStyle(layer) && !BadCrs(layer) && !BadKeywords(layer) && !BadAbstract(layer)
  {
    if StyleNamesOf(layer).None? then Some(StyleNameNotString)
    else if CrsItemsOf(layer).None? then Some(CrsItemNotString)
    else if KeywordItemsOf(layer).None? then Some(KeywordsNotIterable)
    else if !GetOrFalsy(layer, "abstract", JStr("")).JStr? then Some(AbstractNotString)
    else None
  }

  /** The record of a layer that raises nothing. */
  function BuildRecord(layer: seq<Member>): (r: Record)
    requires RowError(layer).None?
    ensures var bbox := BboxMembers(layer);
      && r.westBound == GetOr(bbox, "west_bound_longitude", JStr(""))
      && r.eastBound == GetOr(bbox, "east_bound_longitude", JStr(""))
      && r.northBound == GetOr(bbox, "north_bound_latitude", JStr(""))
      && r.southBound == GetOr(bbox, "south_bound_latitude", JStr(""))
    ensures r.isGlobal == (if r.global then "Yes" else "No")
    ensures r.global == IsGlobalBbox(r.westBound, r.eastBound, r.northBound, r.southBound)
    ensures r.name == GetOr(layer, "name", JStr("")) && r.title == GetOr(layer, "title", JStr(""))
    ensures r.queryable == GetOr(layer, "queryable", JStr(""))
    ensures r.abstractText == Strip(GetOrFalsy(layer, "abstract", JStr("")).s)
    ensures var crs := GetOrFalsy(layer, "CRS", JArr([]));
      r.crs == if crs.JArr? then Join(", ", CrsItemsOf(layer).value) else Str(crs)
    ensures var styles := GetOrFalsy(layer, "style", JArr([]));
      r.styleNames == if styles.JArr? then Join(", ", StyleNamesOf(layer).value) else ""
    ensures r.keywordList == KeywordText(GetOrFalsy(layer, "keyword_list", JArr([])))
    ensures r.pdfV2 == PdfTag(KeywordItemsOf(layer).value)
  {
    var bbox := BboxMembers(layer);
    var west := GetOr(bbox, "west_bound_longitude", JStr(""));
    var east := GetOr(bbox, "east_bound_longitude", JStr(""));
    var north := GetOr(bbox, "north_bound_latitude", JStr(""));
    var south := GetOr(bbox, "south_bound_latitude", JStr(""));
    var styles := GetOrFalsy(layer, "style", JArr([]));
    var crs := GetOrFalsy(layer, "CRS", JArr([]));
    var kw := GetOrFalsy(layer, "keyword_list", JArr([]));
    var abstractText := GetOrFalsy(layer, "abstract", JStr(""));
    var global := IsGlobalBbox(west, east, north, south);
    Record(
      GetOr(layer, "name", JStr("")),
      GetOr(layer, "title", JStr("")),
      Strip(abstractText.s),
      GetOr(layer, "queryable", JStr("")),
      if crs.JArr? then Join(", ", CrsItemsOf(layer).value) else Str(crs),
      west, east, north, south,
      if global then "Yes" else "No",
      global,
      PdfTag(KeywordItemsOf(layer).value),
      if styles.JArr? then Join(", ", StyleNamesOf(layer).value) else "",
      KeywordText(kw))
  }

  /**
   * `extract_row`: the record of one layer, or the exception it raises.
   * Each error is reported exactly when its shape is malformed and no
   * earlier one is; a layer with none of the four malformed shapes gives a
   * record whose bounds are read from the bounding box and whose global
   * flag is the bounding-box classification.
   */
  function ExtractRow(layer: seq<Member>): (r: Result<Record, ExtractError>)
    ensures r == Err(StyleNameNotString) <==> BadStyle(layer)
    ensures r == Err(CrsItemNotString) <==> !BadStyle(layer) && BadCrs(layer)
    ensures r == Err(KeywordsNotIterable) <==> !BadStyle(layer) && !BadCrs(layer) && BadKeywords(layer)
    ensures r == Err(AbstractNotString) <==> !BadStyle(layer) && !BadCrs(layer) && !BadKeywords(layer) && BadAbstract(layer)
    ensures r.Ok? <==> !BadStyle(layer) && !BadCrs(layer) && !BadKeywords(layer) && !BadAbstract(layer)
    ensures r.Ok? ==> var bbox := BboxMembers(layer);
      && r.value.westBound == GetOr(bbox, "west_bound_longitude", JStr(""))
      && r.value.eastBound == GetOr(bbox, "east_bound_longitude", JStr(""))
      && r.value.northBound == GetOr(bbox, "north_bound_latitude", JStr(""))
      && r.value.southBound == GetOr(bbox, "south_bound_latitude", JStr(""))
    ensures r.Ok? ==> r.value.isGlobal == (if r.value.global then "Yes" else "No")
    ensures r.Ok? ==> r.value.global == IsGlobalBbox(r.value.westBound, r.value.eastBound,
                                                     r.value.northBound, r.value.southBound)
    ensures r.Ok? ==> r.value.name == GetOr(layer, "name", JStr("")) && r.value.title == GetOr(layer, "title", JStr(""))
    ensures r.Ok? ==> r.value.queryable == GetOr(layer, "queryable", JStr(""))
    ensures r.Ok? ==> r.value.abstractText == Strip(GetOrFalsy(layer, "abstract", JStr("")).s)
    ensures r.Ok? ==> var crs := GetOrFalsy(layer, "CRS", JArr([]));
      r.value.crs == if crs.JArr? then Join(", ", CrsItemsOf(layer).value) else Str(crs)
    ensures r.Ok? ==> var styles := GetOrFalsy(layer, "style", JArr([]));
      r.value.styleNames == if styles.JArr? then Join(", ", StyleNamesOf(layer).value) else ""
    ensures r.Ok? ==> r.value.keywordList == KeywordText(GetOrFalsy(layer, "keyword_list", JArr([])))
    ensures r.Ok? ==> r.value.pdfV2 == PdfTag(KeywordItemsOf(layer).value)
  {
    match RowError(layer)
    case Some(e) => Err(e)
    case None => Ok(BuildRecord(layer))
  }

  // ------------------------------------------------------------- lemmas

  /**
   * The PDF tag is the lower-cased suffix of the first qualifying keyword;
   * without one it is the "not attached" label.
   */
  lemma {:induction false} PdfTagFirstMatch(kws: seq<Json>)
    ensures (forall i :: 0 <= i < |kws| ==> !IsPdfKeyword(kws[i])) ==> PdfTag(kws) == NoPdfLabel
    ensures forall i :: 0 <= i < |kws| && IsPdfKeyword(kws[i]) && (forall j :: 0 <= j < i ==> !IsPdfKeyword(kws[j]))
                        ==> PdfTag(kws) == Lower(kws[i].s)[|PdfHazardPrefix|..]
  {
    if kws != [] {
      PdfTagFirstMatch(kws[1..]);
      assert forall i :: 1 <= i < |kws| ==> kws[i] == kws[1..][i - 1];
      forall i | 0 <= i < |kws| && IsPdfKeyword(kws[i]) && (forall j :: 0 <= j < i ==> !IsPdfKeyword(kws[j]))
        ensures PdfTag(kws) == Lower(kws[i].s)[|PdfHazardPrefix|..]
      {
        if i > 0 {
          assert !IsPdfKeyword(kws[0]);
          assert forall j :: 0 <= j < i - 1 ==> !IsPdfKeyword(kws[1..][j]) by {
            forall j | 0 <= j < i - 1 ensures !IsPdfKeyword(kws[1..][j]) { assert kws[1..][j] == kws[j + 1]; }
          }
        }
      }
    }
  }

  /** A derived tag is lower-case, so it can never be mistaken for the mixed-case label. */
  lemma {:induction false} PdfTagIsLabelOnlyWithoutMatch(kws: seq<Json>)
    ensures PdfTag(kws) == NoPdfLabel <==> forall i :: 0 <= i < |kws| ==> !IsPdfKeyword(kws[i])
  {
    if kws != [] {
      PdfTagIsLabelOnlyWithoutMatch(kws[1..]);
      assert forall i :: 1 <= i < |kws| ==> kws[i] == kws[1..][i - 1];
      if IsPdfKeyword(kws[0]) {
        var l := Lower(kws[0].s);
        var t := l[|PdfHazardPrefix|..];
        if |t| == |NoPdfLabel| {
          assert t[|t| - 2] == l[|l| - 2];
          assert !('A' <= t[|t| - 2] <= 'Z');
        }
      }
    }
  }

  /** A tag derived from a keyword is lower-case whatever the keyword's casing. */
  lemma {:induction false} PdfTagIsLowerCase(kws: seq<Json>)
    requires exists i :: 0 <= i < |kws| && IsPdfKeyword(kws[i])
    ensures Lower(PdfTag(kws)) == PdfTag(kws)
  {
    if IsPdfKeyword(kws[0]) {
      LoweredSuffix(kws[0].s, |PdfHazardPrefix|);
    } else {
      var i :| 0 <= i < |kws| && IsPdfKeyword(kws[i]);
      assert kws[1..][i - 1] == kws[i];
      PdfTagIsLowerCase(kws[1..]);
    }
  }

  /** A suffix of a lower-cased string is already lower-case. */
  lemma LoweredSuffix(s: string, n: nat)
    requires n <= |s|
    ensures Lower(Lower(s)[n..]) == Lower(s)[n..]
  {
    var l := Lower(s);
    var t := l[n..];
    LowerIdempotent(s);
    forall i | 0 <= i < |t|
      ensures Lower(t)[i] == t[i]
    {
      assert t[i] == l[n + i] && Lower(l)[n + i] == LowerChar(l[n + i]);
    }
  }

  /** A layer without a dict bounding box has four empty bounds and is not global. */
  lemma MissingBboxIsRegional(layer: seq<Member>)
    requires !GetOr(layer, "ex_geographic_bounding_box", JNull).JObj?
    requires ExtractRow(layer).Ok?
    ensures var row := ExtractRow(layer).value;
      && row.westBound == JStr("") && row.eastBound == JStr("")
      && row.northBound == JStr("") && row.southBound == JStr("")
      && row.isGlobal == "No" && !row.global
  {
    NoBboxMembers(layer);
    ToFloatFailsOnEmpty();
    assert !IsGlobalBbox(JStr(""), JStr(""), JStr(""), JStr(""));
  }

  /** A missing, falsy or non-dict bounding box contributes no members. */
  lemma NoBboxMembers(layer: seq<Member>)
    requires !GetOr(layer, "ex_geographic_bounding_box", JNull).JObj?
    ensures BboxMembers(layer) == []
  {
  }

  /** A layer the scanner found has a list of keywords, so iterating them never raises. */
  lemma ScannedLayerKeywordsIterate(layer: Json)
    requires Scanner.IsHazardLayer(layer)
    ensures Iterate(GetOrFalsy(layer.members, "keyword_list", JArr([]))).Some?
  {
  }

  /**
   * A keyword made of the prefix in any letter case followed by a suffix
   * gives that suffix lower-cased ("pdf:hazardlookup:Local" gives "local").
   */
  lemma PdfTagOfPrefixed(p: string, suffix: string, rest: seq<Json>)
    requires Lower(p) == PdfHazardPrefix
    ensures PdfTag([JStr(p + suffix)] + rest) == Lower(suffix)
  {
    LowerConcat(p, suffix);
    var l := Lower(p + suffix);
    assert l[..|PdfHazardPrefix|] == PdfHazardPrefix;
    assert l[|PdfHazardPrefix|..] == Lower(suffix);
  }

  // ------------------------------------------------------- the error path

  /** Some dict among the listed styles has a `name` that is not a string. */
  predicate BadStyle(layer: seq<Member>)
  {
    var styles := GetOrFalsy(layer, "style", JArr([]));
    styles.JArr? && exists i :: 0 <= i < |styles.items| && styles.items[i].JObj?
                                && !GetOr(styles.items[i].members, "name", JStr("")).JStr?
  }

  /** The `CRS` value is a list with an element that is not a string. */
  predicate BadCrs(layer: seq<Member>)
  {
    var crs := GetOrFalsy(layer, "CRS", JArr([]));
    crs.JArr? && exists i :: 0 <= i < |crs.items| && !crs.items[i].JStr?
  }

  /** The `keyword_list` value is truthy but neither a list, a string nor a dict. */
  predicate BadKeywords(layer: seq<Member>)
  {
    var kw := GetOrFalsy(layer, "keyword_list", JArr([]));
    Truthy(kw) && !kw.JArr? && !kw.JStr? && !kw.JObj?
  }

  /** The `abstract` value is truthy and not a string. */
  predicate BadAbstract(layer: seq<Member>)
  {
    !GetOrFalsy(layer, "abstract", JStr("")).JStr?
  }

  /**
   * For a layer the scanner matched, the PDF tag is read from the keyword
   * list itself and the keyword text is its elements' `str()` joined by ", ".
   */
  lemma ScannedLayerRecord(layer: Json)
    requires Scanner.IsHazardLayer(layer)
    requires ExtractRow(layer.members).Ok?
    ensures var kws := Get(layer.members, "keyword_list").value.items;
      && ExtractRow(layer.members).value.pdfV2 == PdfTag(kws)
      && ExtractRow(layer.members).value.keywordList == Join(", ", StrItems(kws))
  {
    HazardLayerKeywords(layer);
  }

  /** A scanned layer's falsy-defaulted `keyword_list` is its own non-empty keyword list. */
  lemma HazardLayerKeywords(layer: Json)
    requires Scanner.IsHazardLayer(layer)
    ensures Get(layer.members, "keyword_list").Some? && Get(layer.members, "keyword_list").value.JArr?
    ensures GetOrFalsy(layer.members, "keyword_list", JArr([])) == Get(layer.members, "keyword_list").value
  {
    var kws := Get(layer.members, "keyword_list").value.items;
    var i :| 0 <= i < |kws| && Contains(Lower(Str(kws[i])), Scanner.Target);
  }
}
