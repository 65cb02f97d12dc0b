/**
 Merging a sampled JSON-stat2 response into dataset metadata (pxweb_v1/enrichment.py).
 Metadata keeps its own structure; the sample only adds notes, links, units and extensions.
 */
module Enrichment {
  import opened Common
  import opened Structure

  const CONTENTS := "ContentsCode"
  const MARKER := "EliminatedValue"

  datatype Json = Text(text: string) | Value(text: string) | Object(fields: map<string, Json>)

  /**
   What is not looked into: `structured_extras` for a unit, `coerce_bool`, which texts are blank, and the
   final model validation of the merged document.
   */
  datatype Rules = Rules(
    reshape: Json -> Option<Json>, flag: Json -> Option<bool>, blank: string -> bool, valid: Document -> bool)

  // ---- The sample -------------------------------------------------------------------------------

  /** `category.index`: an object with ordinals, a list of keys, or anything else. */
  datatype SampleIndex = Numbered(ordinals: map<string, int>) | Listed(keys: seq<string>) | NoIndex

  datatype SampleCategory =
    SampleCategory(index: SampleIndex, unit: Option<Json>, note: Option<Json>, coordinates: Option<Json>)

  /** `extension` is an empty object when the sample has none. */
  datatype SampleDim =
    | NotADimension
    | SampleDim(category: Option<SampleCategory>, note: Option<Json>, link: Option<Json>, extension: Json)

  /** `ids`, `sizes` and `dims` are `None` when they are no list of strings, no list, no object. */
  datatype Sample = Sample(
    isDataset: bool, ids: Option<seq<string>>, sizes: Option<seq<int>>, dims: Option<map<string, SampleDim>>,
    extension: Json, source: Option<Json>, note: Option<Json>)

  /** What the request brings; a body that is no JSON is a sample that is no dataset. */
  datatype Reply = NoReply | Reply(status: int, sample: Sample)

  /** A retriable upstream failure, an error, or the enriched documents. */
  datatype Outcome = Unavailable | Refused | Resolved(doc: Document)

  // ---- The documents ----------------------------------------------------------------------------

  datatype DocCategory = DocCategory(
    index: map<string, int>, labels: map<string, string>,
    unit: Option<map<string, Json>>, note: Option<map<string, Json>>, coordinates: Option<map<string, Json>>)

  datatype DocDim =
    DocDim(title: string, category: DocCategory, note: Option<Json>, link: Option<Json>, extension: map<string, Json>)

  /** The dataset-level texts that a sample may replace. */
  datatype Texts = Texts(
    description: Option<Json>, subject: Option<map<string, Json>>, official: Option<bool>,
    source: Option<Json>, note: Option<Json>)

  datatype Document = Document(
    identity: string, ids: seq<string>, dims: map<string, DocDim>, extension: map<string, Json>, texts: Texts)

  /** Metadata and selection belong together: the same distinct dimensions, all of them sampled. */
  ghost predicate Matches(doc: Document, selection: map<string, seq<string>>) {
    Distinct(doc.ids) && doc.dims.Keys == Elements(doc.ids) && selection.Keys == Elements(doc.ids)
  }

  // ---- What counts as an acceptable sample ------------------------------------------------------

  /** `dict(zip(ids, sizes))` */
  function SizeMap(ids: seq<string>, sizes: seq<int>): map<string, int>
    requires |ids| == |sizes|
  {
    if ids == [] then map[]
    else SizeMap(ids[..|ids| - 1], sizes[..|ids| - 1])[ids[|ids| - 1] := sizes[|ids| - 1]]
  }

  /** The stand-in that PXWeb puts in place of a contents dimension. */
  predicate IsPlaceholder(dims: map<string, SampleDim>) {
    && CONTENTS in dims && dims[CONTENTS].SampleDim? && dims[CONTENTS].category.Some?
    && var index := dims[CONTENTS].category.value.index;
       index == Numbered(map[MARKER := 0]) || index == Listed([MARKER])
  }

  /** The stand-in is an axis of its own, unknown to the metadata. */
  predicate Synthetic(doc: Document, dims: map<string, SampleDim>) {
    IsPlaceholder(dims) && CONTENTS !in doc.dims
  }

  /** The stand-in replaces the only real contents code. */
  predicate Replaced(doc: Document, dims: map<string, SampleDim>) {
    IsPlaceholder(dims) && CONTENTS in doc.dims && |doc.dims[CONTENTS].category.index| == 1
  }

  /** The only key of the contents dimension. */
  function SoleKey(index: map<string, int>): (key: string)
    requires |index| == 1
    ensures key in index
  {
    OnlyOneKey(index);
    var key :| key in index;
    key
  }

  lemma OnlyOneKey(index: map<string, int>)
    requires |index| == 1
    ensures exists k :: k in index
    ensures forall k, l :: k in index && l in index ==> k == l
  {
    assert |index.Keys| == 1;
    assert index.Keys != {};
    var k :| k in index.Keys;
    assert |index.Keys - {k}| == 0;
    assert index.Keys == {k};
  }

  /** A per-category field keyed by the stand-in, keyed by the real code instead. */
  function RemapField(field: Option<Json>, sole: string): Option<Option<Json>> {
    if field.None? || !field.value.Object? then Some(field)
    else
      var fields := field.value.fields;
      if !(fields.Keys <= {MARKER}) then None
      else Some(Some(Object(if fields == map[] then map[] else map[sole := fields[MARKER]])))
  }

  function RemapContents(dim: SampleDim, sole: string): Option<SampleDim>
    requires dim.SampleDim? && dim.category.Some?
  {
    var c := dim.category.value;
    var unit, note, coordinates := RemapField(c.unit, sole), RemapField(c.note, sole), RemapField(c.coordinates, sole);
    if unit.None? || note.None? || coordinates.None? then None
    else
      var remapped := SampleCategory(Numbered(map[sole := 0]), unit.value, note.value, coordinates.value);
      Some(dim.(category := Some(remapped)))
  }

  /** The sizes by dimension, the synthetic axis left out if it has size 1. */
  function AxisSizes(doc: Document, sample: Sample): Option<map<string, int>> {
    if sample.ids.None? || sample.sizes.None? || sample.dims.None? then None
    else if |sample.ids.value| != |sample.sizes.value| || |Elements(sample.ids.value)| != |sample.ids.value| then None
    else
      var sizes := SizeMap(sample.ids.value, sample.sizes.value);
      if !Synthetic(doc, sample.dims.value) || CONTENTS !in sizes then Some(sizes)
      else if sizes[CONTENTS] != 1 then None
      else Some(sizes - {CONTENTS})
  }

  /** The dimensions after dropping or remapping the stand-in. */
  function AxisDims(doc: Document, dims: map<string, SampleDim>): Option<map<string, SampleDim>> {
    if Synthetic(doc, dims) then Some(dims - {CONTENTS})
    else if Replaced(doc, dims) then
      var remapped := RemapContents(dims[CONTENTS], SoleKey(doc.dims[CONTENTS].category.index));
      if remapped.None? then None else Some(dims[CONTENTS := remapped.value])
    else Some(dims)
  }

  function IndexOf(index: SampleIndex): Option<map<string, int>> {
    match index
    case Numbered(ordinals) => Some(ordinals)
    case Listed(keys) => Some(Enumerate(keys))
    case NoIndex => None
  }

  /** A per-category field is absent or an object whose keys are sampled categories. */
  predicate FieldFits(field: Option<Json>, keys: set<string>) {
    field.Some? ==> field.value.Object? && field.value.fields.Keys <= keys
  }

  predicate UnitsFit(rules: Rules, unit: Option<Json>) {
    unit.Some? && unit.value.Object? ==>
      forall k :: k in unit.value.fields ==> rules.reshape(unit.value.fields[k]).Some?
  }

  /** The sampled dimension shows exactly the selected categories, densely numbered. */
  predicate DimFits(rules: Rules, dim: SampleDim, selected: seq<string>) {
    && dim.SampleDim? && dim.category.Some? && dim.extension.Object?
    && var c := dim.category.value;
       var index := IndexOf(c.index);
       && index.Some? && index.value.Keys == Elements(selected) && index.value.Values == Range(|index.value|)
       && FieldFits(c.unit, index.value.Keys) && FieldFits(c.note, index.value.Keys)
       && FieldFits(c.coordinates, index.value.Keys) && UnitsFit(rules, c.unit)
  }

  predicate PxFits(extension: Json) {
    extension.Object? && ("px" in extension.fields ==> extension.fields["px"].Object?)
  }

  predicate Accepts(rules: Rules, doc: Document, selection: map<string, seq<string>>, sample: Sample)
    requires selection.Keys == doc.dims.Keys
  {
    && sample.isDataset
    && var sizes := AxisSizes(doc, sample);
       && sizes.Some? && sizes.value == SelectedSizes(selection)
       && var dims := AxisDims(doc, sample.dims.value);
          && dims.Some? && dims.value.Keys == doc.dims.Keys
          && (forall code :: code in selection ==> DimFits(rules, dims.value[code], selection[code]))
          && PxFits(sample.extension)
  }

  // ---- The merged document ----------------------------------------------------------------------

  function OrElse<T>(first: Option<T>, second: Option<T>): Option<T> { if first.Some? then first else second }

  function Fields(field: Option<Json>): Option<map<string, Json>> {
    if field.Some? && field.value.Object? then Some(field.value.fields) else None
  }

  function Reshaped(rules: Rules, unit: Option<Json>): Option<map<string, Json>> {
    if unit.Some? && unit.value.Object?
    then Some(map k | k in unit.value.fields && rules.reshape(unit.value.fields[k]).Some? ::
                rules.reshape(unit.value.fields[k]).value)
    else None
  }

  function MergedDim(rules: Rules, target: DocDim, dim: SampleDim): DocDim
    requires dim.SampleDim? && dim.category.Some? && dim.extension.Object?
  {
    var c := dim.category.value;
    target.(
    note := OrElse(dim.note, target.note),
    link := OrElse(dim.link, target.link),
    extension := dim.extension.fields + target.extension,
    category := target.category.(
    unit := OrElse(Reshaped(rules, c.unit), target.category.unit),
    note := OrElse(Fields(c.note), target.category.note),
    coordinates := OrElse(Fields(c.coordinates), target.category.coordinates)))
  }

  /** `extension.px` without the axis layout, which the metadata keeps itself. */
  function FixedPx(extension: Json): map<string, Json>
    requires PxFits(extension)
  {
    if "px" in extension.fields then extension.fields["px"].fields - {"heading", "stub"} else map[]
  }

  function WithPx(extension: map<string, Json>, px: map<string, Json>): map<string, Json> {
    if px == map[] then extension else extension["px" := Object(px)]
  }

  /** `extension.px` as the sample has it. */
  function Px(extension: Json): map<string, Json>
    requires PxFits(extension)
  {
    if "px" in extension.fields then extension.fields["px"].fields else map[]
  }

  /** A text that is not blank. */
  function Usable(rules: Rules, px: map<string, Json>, key: string): Option<Json> {
    if key in px && px[key].Text? && !rules.blank(px[key].text) then Some(px[key]) else None
  }

  function Flag(rules: Rules, px: map<string, Json>): Option<bool> {
    if "official-statistics" in px then rules.flag(px["official-statistics"]) else None
  }

  /** `document.setdefault("subject", {})[field] = value` */
  function WithSubject(subject: Option<map<string, Json>>, field: string, value: Option<Json>)
    : Option<map<string, Json>>
  {
    if value.None? then subject
    else Some((if subject.Some? then subject.value else map[])[field := value.value])
  }

  function WithTexts(rules: Rules, texts: Texts, px: map<string, Json>, sample: Sample): Texts {
    Texts(OrElse(Usable(rules, px, "description"), texts.description),
          WithSubject(WithSubject(texts.subject, "code", Usable(rules, px, "subject-code")),
                      "label", Usable(rules, px, "subject-area")),
          OrElse(Flag(rules, px), texts.official),
          OrElse(sample.source, texts.source), OrElse(sample.note, texts.note))
  }

  function Enriched(rules: Rules, doc: Document, selection: map<string, seq<string>>,
                    sample: Sample): Document
    requires selection.Keys == doc.dims.Keys && Accepts(rules, doc, selection, sample)
  {
    var dims := AxisDims(doc, sample.dims.value).value;
    doc.(dims := map code | code in doc.dims :: MergedDim(rules, doc.dims[code], dims[code]),
         extension := WithPx(doc.extension, FixedPx(sample.extension)),
         texts := WithTexts(rules, doc.texts, Px(sample.extension), sample))
  }

  // ---- Sizes by dimension -----------------------------------------------------------------------

  lemma {:induction false} SizeMapAt(ids: seq<string>, sizes: seq<int>)
    requires |ids| == |sizes| && Distinct(ids)
    ensures SizeMap(ids, sizes).Keys == Elements(ids)
    ensures forall i :: 0 <= i < |ids| ==> SizeMap(ids, sizes)[ids[i]] == sizes[i]
  {
    if ids != [] {
      var front, last := ids[..|ids| - 1], ids[|ids| - 1];
      SizeMapAt(front, sizes[..|ids| - 1]);
      assert ids == front + [last];
      ElementsAppend(front, last);
      forall i | 0 <= i < |ids| ensures SizeMap(ids, sizes)[ids[i]] == sizes[i] {
        assert i < |front| ==> front[i] == ids[i];
      }
    }
  }

  lemma SizeMapIs(ids: seq<string>, sizes: seq<int>, m: map<string, int>)
    requires |ids| == |sizes| && Distinct(ids)
    requires m.Keys == Elements(ids)
    requires forall i :: 0 <= i < |ids| ==> m[ids[i]] == sizes[i]
    ensures m == SizeMap(ids, sizes)
  {
    SizeMapAt(ids, sizes);
    forall k | k in m ensures m[k] == SizeMap(ids, sizes)[k] {
      var i :| 0 <= i < |ids| && ids[i] == k;
    }
  }

  function Without<T>(s: seq<T>, p: nat): seq<T>
    requires p < |s|
  {
    s[..p] + s[p + 1..]
  }

  lemma WithoutOne(ids: seq<string>, p: nat)
    requires Distinct(ids) && p < |ids|
    ensures Distinct(Without(ids, p)) && Elements(Without(ids, p)) == Elements(ids) - {ids[p]}
  {
    var rest := Without(ids, p);
    forall x | x in ids && x != ids[p] ensures x in rest {
      var i :| 0 <= i < |ids| && ids[i] == x;
      assert rest[if i < p then i else i - 1] == x;
    }
  }

  lemma SizeMapWithout(ids: seq<string>, sizes: seq<int>, p: nat)
    requires |ids| == |sizes| && Distinct(ids) && p < |ids|
    ensures SizeMap(Without(ids, p), Without(sizes, p)) == SizeMap(ids, sizes) - {ids[p]}
  {
    var rest, less, m := Without(ids, p), Without(sizes, p), SizeMap(ids, sizes) - {ids[p]};
    WithoutOne(ids, p);
    SizeMapAt(ids, sizes);
    hide SizeMap, Distinct;
    assert m.Keys == Elements(rest);
    forall i | 0 <= i < |rest| ensures m[rest[i]] == less[i] {
      assert rest[i] in m;
    }
    SizeMapIs(rest, less, m);
  }

  function Sizes(ids: seq<string>, selection: map<string, seq<string>>): seq<int>
    requires forall code :: code in ids ==> code in selection
  {
    seq(|ids|, i requires 0 <= i < |ids| => |selection[ids[i]]|)
  }

  function SelectedSizes(selection: map<string, seq<string>>): map<string, int> {
    map code | code in selection :: |selection[code]|
  }

  /** The two list tests of the source say that sizes, taken by dimension, fit the selection. */
  lemma SizesFit(ids: seq<string>, sizes: seq<int>, selection: map<string, seq<string>>)
    requires |ids| == |sizes| && Distinct(ids)
    ensures SizeMap(ids, sizes) == SelectedSizes(selection) <==>
              Elements(ids) == selection.Keys && sizes == Sizes(ids, selection)
  {
    SizeMapAt(ids, sizes);
    if Elements(ids) == selection.Keys && sizes == Sizes(ids, selection) {
      SizeMapIs(ids, sizes, SelectedSizes(selection));
    }
  }

  // ---- The operation ----------------------------------------------------------------------------

  method PositionOf(ids: seq<string>, x: string) returns (p: nat)
    requires x in ids
    ensures p < |ids| && ids[p] == x
  {
    p := 0;
    while ids[p] != x
      invariant p < |ids| && x in ids[p..]
      decreases |ids| - p
    {
      p := p + 1;
    }
  }

  /** The ids, sizes and dimensions of the sample in the metadata's own terms. */
  method CanonicalAxes(doc: Document, sample: Sample)
    returns (r: Option<(seq<string>, seq<int>, map<string, SampleDim>)>)
    requires sample.ids.Some? && sample.sizes.Some? && sample.dims.Some?
    requires |sample.ids.value| == |sample.sizes.value| == |Elements(sample.ids.value)|
    ensures r.Some? <==> AxisSizes(doc, sample).Some? && AxisDims(doc, sample.dims.value).Some?
    ensures r.Some? ==>
              && |r.value.0| == |r.value.1| && Distinct(r.value.0)
              && SizeMap(r.value.0, r.value.1) == AxisSizes(doc, sample).value
              && r.value.2 == AxisDims(doc, sample.dims.value).value
  {
    var ids, sizes, dims := sample.ids.value, sample.sizes.value, sample.dims.value;
    DistinctIffSize(ids);
    SizeMapAt(ids, sizes);
    if IsPlaceholder(dims) && CONTENTS !in doc.dims {
      if CONTENTS in ids {
        var position := PositionOf(ids, CONTENTS);
        if sizes[position] != 1 {
          return None;
        }
        WithoutOne(ids, position);
        SizeMapWithout(ids, sizes, position);
        ids, sizes := Without(ids, position), Without(sizes, position);
      }
      dims := dims - {CONTENTS};
    } else if IsPlaceholder(dims) && |doc.dims[CONTENTS].category.index| == 1 {
      var remapped := RemapContents(dims[CONTENTS], SoleKey(doc.dims[CONTENTS].category.index));
      if remapped.None? {
        return None;
      }
      dims := dims[CONTENTS := remapped.value];
    }
    r := Some((ids, sizes, dims));
  }

  /** The first `n` listed dimensions are merged, the others are untouched. */
  ghost predicate MergedFirst(rules: Rules, doc: Document, selection: map<string, seq<string>>,
                              ids: seq<string>, dims: map<string, SampleDim>, n: nat, merged: map<string, DocDim>)
    requires Elements(ids) == doc.dims.Keys == dims.Keys == selection.Keys
  {
    && merged.Keys == doc.dims.Keys
    && forall j :: 0 <= j < |ids| ==>
         if j < n then MergedAs(rules, doc.dims[ids[j]], dims[ids[j]], selection[ids[j]], merged[ids[j]])
         else merged[ids[j]] == doc.dims[ids[j]]
  }

  predicate MergedAs(rules: Rules, target: DocDim, dim: SampleDim, selected: seq<string>,
                     merged: DocDim) {
    DimFits(rules, dim, selected) && merged == MergedDim(rules, target, dim)
  }

  lemma MergedNext(rules: Rules, doc: Document, selection: map<string, seq<string>>,
                   ids: seq<string>, dims: map<string, SampleDim>, n: nat, merged: map<string, DocDim>, next: DocDim)
    requires Elements(ids) == doc.dims.Keys == dims.Keys == selection.Keys && Distinct(ids) && n < |ids|
    requires MergedFirst(rules, doc, selection, ids, dims, n, merged)
    requires MergedAs(rules, doc.dims[ids[n]], dims[ids[n]], selection[ids[n]], next)
    ensures MergedFirst(rules, doc, selection, ids, dims, n + 1, merged[ids[n] := next])
  {
    hide MergedAs;
  }

  lemma MergedAll(rules: Rules, doc: Document, selection: map<string, seq<string>>,
                  ids: seq<string>, dims: map<string, SampleDim>, merged: map<string, DocDim>, code: string)
    requires Elements(ids) == doc.dims.Keys == dims.Keys == selection.Keys && code in doc.dims
    requires MergedFirst(rules, doc, selection, ids, dims, |ids|, merged)
    ensures MergedAs(rules, doc.dims[code], dims[code], selection[code], merged[code])
  {
    hide MergedAs;
    assert code in ids;
    var j :| 0 <= j < |ids| && ids[j] == code;
  }

  /** The merge loop: it updates the document's dimensions one after the other. */
  method MergeDimensions(rules: Rules, doc: Document, selection: map<string, seq<string>>,
                         ids: seq<string>, dims: map<string, SampleDim>)
    returns (r: Option<map<string, DocDim>>)
    requires Elements(ids) == doc.dims.Keys == dims.Keys == selection.Keys && Distinct(ids)
    ensures r.Some? <==> forall code :: code in selection ==> DimFits(rules, dims[code], selection[code])
    ensures r.Some? ==> r.value == map code | code in doc.dims :: MergedDim(rules, doc.dims[code], dims[code])
  {
    hide DimFits, MergedDim, MergedFirst;
    var merged := doc.dims;
    assert MergedFirst(rules, doc, selection, ids, dims, 0, merged) by {
      MergedNone(rules, doc, selection, ids, dims);
    }
    var i := 0;
    while i < |ids|
      invariant 0 <= i <= |ids| && merged.Keys == doc.dims.Keys
      invariant forall j :: i <= j < |ids| ==> merged[ids[j]] == doc.dims[ids[j]]
      invariant MergedFirst(rules, doc, selection, ids, dims, i, merged)
    {
      var code := ids[i];
      assert code in selection;
      if !DimFits(rules, dims[code], selection[code]) {
        return None;
      }
      FitsShape(rules, dims[code], selection[code]);
      var next := MergedDim(rules, merged[code], dims[code]);
      MergedNext(rules, doc, selection, ids, dims, i, merged, next);
      merged := merged[code := next];
      i := i + 1;
    }
    forall code | code in doc.dims
      ensures MergedAs(rules, doc.dims[code], dims[code], selection[code], merged[code]) && Fits(rules, dims[code])
    {
      MergedAll(rules, doc, selection, ids, dims, merged, code);
      FitsShape(rules, dims[code], selection[code]);
    }
    r := Some(merged);
  }

  lemma MergedNone(rules: Rules, doc: Document, selection: map<string, seq<string>>,
                   ids: seq<string>, dims: map<string, SampleDim>)
    requires Elements(ids) == doc.dims.Keys == dims.Keys == selection.Keys
    ensures MergedFirst(rules, doc, selection, ids, dims, 0, doc.dims)
  {
  }

  predicate Fits(rules: Rules, dim: SampleDim) {
    dim.SampleDim? && dim.category.Some? && dim.extension.Object?
  }

  lemma FitsShape(rules: Rules, dim: SampleDim, selected: seq<string>)
    requires DimFits(rules, dim, selected)
    ensures Fits(rules, dim)
  {
  }

  /** The merge of an acceptable sample, before the final validation. */
  method MergeSample(rules: Rules, doc: Document, selection: map<string, seq<string>>,
                     sample: Sample)
    returns (r: Option<Document>)
    requires Matches(doc, selection)
    ensures r.Some? <==> Accepts(rules, doc, selection, sample)
    ensures r.Some? ==> r.value == Enriched(rules, doc, selection, sample)
  {
    hide MergedDim, DimFits, IsPlaceholder, Replaced, Synthetic, AxisSizes, AxisDims, SizeMap, FixedPx, WithTexts;
    if !sample.isDataset || sample.ids.None? || sample.sizes.None? || sample.dims.None? {
      NoAxes(doc, sample);
      return None;
    }
    var ids, sizes := sample.ids.value, sample.sizes.value;
    if |ids| != |sizes| || |Elements(ids)| != |ids| {
      NoAxes(doc, sample);
      return None;
    }
    var axes := CanonicalAxes(doc, sample);
    if axes.None? {
      return None;
    }
    var dims := axes.value.2;
    ids, sizes := axes.value.0, axes.value.1;
    SizesFit(ids, sizes, selection);
    if Elements(ids) != Elements(doc.ids) || dims.Keys != Elements(doc.ids) {
      return None;
    }
    if sizes != Sizes(ids, selection) {
      return None;
    }
    var merged := MergeDimensions(rules, doc, selection, ids, dims);
    if merged.None? || !PxFits(sample.extension) {
      return None;
    }
    var texts := MergeTexts(rules, doc.texts, Px(sample.extension), sample);
    r := Some(doc.(dims := merged.value, extension := WithPx(doc.extension, FixedPx(sample.extension)),
                   texts := texts));
  }

  method MergeTexts(rules: Rules, texts: Texts, px: map<string, Json>, sample: Sample) returns (r: Texts)
    ensures r == WithTexts(rules, texts, px, sample)
  {
    r := texts;
    var fields := [("description", "description"), ("code", "subject-code"), ("label", "subject-area")];
    for i := 0 to 3
      invariant r == texts.(description := if i >= 1 then OrElse(Usable(rules, px, "description"), texts.description)
                                           else texts.description,
                            subject := SubjectAfter(rules, texts.subject, px, i))
    {
      var value := Usable(rules, px, fields[i].1);
      if value.Some? {
        if fields[i].0 == "description" {
          r := r.(description := value);
        } else {
          r := r.(subject := WithSubject(r.subject, fields[i].0, value));
        }
      }
    }
    var official := Flag(rules, px);
    if official.Some? {
      r := r.(official := official);
    }
    if sample.source.Some? {
      r := r.(source := sample.source);
    }
    if sample.note.Some? {
      r := r.(note := sample.note);
    }
  }

  /** The subject after the first `n` of the three texts. */
  function SubjectAfter(rules: Rules, subject: Option<map<string, Json>>, px: map<string, Json>, n: int)
    : Option<map<string, Json>>
  {
    var coded := if n >= 2 then WithSubject(subject, "code", Usable(rules, px, "subject-code")) else subject;
    if n >= 3 then WithSubject(coded, "label", Usable(rules, px, "subject-area")) else coded
  }

  /** `enrich_metadata` after the request: the failed statuses, the merge, and the final validation. */
  method EnrichMetadata(rules: Rules, doc: Document, selection: map<string, seq<string>>, reply: Reply)
    returns (r: Outcome)
    requires Matches(doc, selection)
    ensures r.Unavailable? <==> reply.NoReply? || reply.status == 429 || reply.status >= 500
    ensures r.Resolved? <==>
              && reply.Reply? && 200 <= reply.status < 300 && Accepts(rules, doc, selection, reply.sample)
              && rules.valid(Enriched(rules, doc, selection, reply.sample))
    ensures r.Resolved? ==> r.doc == Enriched(rules, doc, selection, reply.sample)
  {
    hide Accepts, Enriched;
    if reply.NoReply? || !(200 <= reply.status < 300) {
      if reply.NoReply? || reply.status == 429 || reply.status >= 500 {
        return Unavailable;
      }
      return Refused;
    }
    var merged := MergeSample(rules, doc, selection, reply.sample);
    if merged.None? || !rules.valid(merged.value) {
      return Refused;
    }
    r := Resolved(merged.value);
  }

  lemma NoAxes(doc: Document, sample: Sample)
    ensures (sample.ids.None? || sample.sizes.None? || sample.dims.None?
             || |sample.ids.value| != |sample.sizes.value| || |Elements(sample.ids.value)| != |sample.ids.value|)
            ==> AxisSizes(doc, sample).None?
  {
  }

  // ---- Acceptance, field by field ---------------------------------------------------------------

  /** The dimension shows the stand-in as its only category. */
  predicate ShowsMarker(dim: SampleDim) {
    dim.SampleDim? && dim.category.Some?
    && (dim.category.value.index == Numbered(map["EliminatedValue" := 0])
        || dim.category.value.index == Listed(["EliminatedValue"]))
  }

  /** The stand-in is not in play: it is not shown, or the metadata has several contents codes. */
  predicate Plain(doc: Document, dims: map<string, SampleDim>) {
    "ContentsCode" in dims && ShowsMarker(dims["ContentsCode"]) ==>
      "ContentsCode" in doc.dims && |doc.dims["ContentsCode"].category.index| != 1
  }

  /** The sampled categories are the selected ones, each with an ordinal of its own from 0 on. */
  ghost predicate ShowsExactly(index: SampleIndex, selected: seq<string>) {
    match index
    case NoIndex => false
    case Listed(keys) => Distinct(keys) && forall k :: k in keys <==> k in selected
    case Numbered(ordinals) =>
      && (forall k :: k in ordinals <==> k in selected)
      && (forall k :: k in ordinals ==> 0 <= ordinals[k] < |ordinals|)
      && (forall k, l :: k in ordinals && l in ordinals && k != l ==> ordinals[k] != ordinals[l])
  }

  /** A per-category field is absent, or an object that speaks of selected categories only. */
  predicate SpeaksOf(field: Option<Json>, selected: seq<string>) {
    field.Some? ==> field.value.Object? && forall k :: k in field.value.fields ==> k in selected
  }

  ghost predicate ShownPlainly(rules: Rules, dim: SampleDim, selected: seq<string>) {
    && dim.SampleDim? && dim.category.Some? && dim.extension.Object?
    && ShowsExactly(dim.category.value.index, selected)
    && SpeaksOf(dim.category.value.unit, selected) && SpeaksOf(dim.category.value.note, selected)
    && SpeaksOf(dim.category.value.coordinates, selected)
    && (dim.category.value.unit.Some? ==> forall k :: k in dim.category.value.unit.value.fields ==>
          rules.reshape(dim.category.value.unit.value.fields[k]).Some?)
  }

  /** The axes are the metadata's dimensions in some order, each of the size of its selection. */
  ghost predicate AxesMatch(doc: Document, selection: map<string, seq<string>>, ids: seq<string>, sizes: seq<int>)
    requires selection.Keys == Elements(doc.ids)
  {
    && |ids| == |sizes| == |doc.ids|
    && (forall code :: code in ids <==> code in doc.ids)
    && forall i :: 0 <= i < |ids| ==> ids[i] in selection && sizes[i] == |selection[ids[i]]|
  }

  lemma NumberedExactly(ordinals: map<string, int>, selected: seq<string>)
    ensures ordinals.Keys == Elements(selected) && ordinals.Values == Range(|ordinals|)
        <==> ShowsExactly(Numbered(ordinals), selected)
  {
    hide IsIndex;
    ValuesSize(ordinals);
    if ShowsExactly(Numbered(ordinals), selected) {
      assert ordinals.Values <= Range(|ordinals|);
      SubsetSize(ordinals.Values, Range(|ordinals|));
    }
    if ordinals.Values == Range(|ordinals|) {
      assert forall k :: k in ordinals ==> ordinals[k] in ordinals.Values;
    }
  }

  lemma DenseIsIndex(index: map<string, int>)
    ensures IsIndex(index) <==> index.Values == Range(|index|)
  {
    ValuesSize(index);
  }

  lemma ListedExactly(keys: seq<string>, selected: seq<string>)
    ensures var index := Enumerate(keys);
      index.Keys == Elements(selected) && index.Values == Range(|index|) <==> ShowsExactly(Listed(keys), selected)
  {
    hide Enumerate, IsIndex, Range, Distinct;
    EnumerateKeys(keys);
    EnumerationIsIndex(keys);
    DenseIsIndex(Enumerate(keys));
    SameElements(keys, selected);
  }

  lemma SameElements(a: seq<string>, b: seq<string>)
    ensures Elements(a) == Elements(b) <==> forall k :: k in a <==> k in b
  {
    if forall k :: k in a <==> k in b {
      assert Elements(a) == Elements(b);
    }
    if Elements(a) == Elements(b) {
      assert forall k :: k in a <==> k in Elements(a);
      assert forall k :: k in b <==> k in Elements(b);
    }
  }

  lemma IndexShown(index: SampleIndex, selected: seq<string>)
    ensures ShowsExactly(index, selected) <==>
              IndexOf(index).Some? && IndexOf(index).value.Keys == Elements(selected)
              && IndexOf(index).value.Values == Range(|IndexOf(index).value|)
  {
    match index
    case NoIndex =>
    case Listed(keys) => ListedExactly(keys, selected);
    case Numbered(ordinals) => NumberedExactly(ordinals, selected);
  }

  lemma DimShown(rules: Rules, dim: SampleDim, selected: seq<string>)
    ensures DimFits(rules, dim, selected) <==> ShownPlainly(rules, dim, selected)
  {
    hide ShowsExactly, IndexOf;
    if dim.SampleDim? && dim.category.Some? {
      IndexShown(dim.category.value.index, selected);
    }
  }

  lemma AxesShown(doc: Document, selection: map<string, seq<string>>, ids: seq<string>, sizes: seq<int>)
    requires Matches(doc, selection)
    ensures |ids| == |sizes| && |Elements(ids)| == |ids| && SizeMap(ids, sizes) == SelectedSizes(selection)
        <==> AxesMatch(doc, selection, ids, sizes)
  {
    hide SizeMap, SelectedSizes, Sizes, Elements, Distinct;
    DistinctSize(doc.ids);
    DistinctIffSize(ids);
    SameElements(ids, doc.ids);
    if |ids| == |sizes| && Distinct(ids) {
      SizesFit(ids, sizes, selection);
      if Elements(ids) == selection.Keys {
        InSelection(ids, selection);
        SizesAt(ids, sizes, selection);
      }
    }
  }

  lemma InSelection(ids: seq<string>, selection: map<string, seq<string>>)
    requires Elements(ids) == selection.Keys
    ensures forall code :: code in ids <==> code in selection
  {
    assert forall code :: code in ids <==> code in Elements(ids);
  }

  lemma SizesAt(ids: seq<string>, sizes: seq<int>, selection: map<string, seq<string>>)
    requires |ids| == |sizes| && forall code :: code in ids ==> code in selection
    ensures sizes == Sizes(ids, selection)
        <==> forall i :: 0 <= i < |ids| ==> ids[i] in selection && sizes[i] == |selection[ids[i]]|
  {
  }

  /**
   Which samples are accepted, in terms of their own lists and objects, when the stand-in is not in play:
   a dataset with the metadata's dimensions as axes in any order, sized as selected, each showing exactly the
   selected categories, and with objects where objects belong.
   */
  lemma AcceptedPlainly(rules: Rules, doc: Document, selection: map<string, seq<string>>, sample: Sample)
    requires Matches(doc, selection) && (sample.dims.Some? ==> Plain(doc, sample.dims.value))
    ensures Accepts(rules, doc, selection, sample) <==>
      && sample.isDataset && sample.ids.Some? && sample.sizes.Some? && sample.dims.Some?
      && AxesMatch(doc, selection, sample.ids.value, sample.sizes.value)
      && (forall code :: code in sample.dims.value <==> code in doc.ids)
      && (forall code :: code in doc.ids && code in sample.dims.value ==>
            ShownPlainly(rules, sample.dims.value[code], selection[code]))
      && sample.extension.Object?
      && ("px" in sample.extension.fields ==> sample.extension.fields["px"].Object?)
    ensures sample.dims.Some? ==> AxisDims(doc, sample.dims.value) == Some(sample.dims.value)
  {
    hide AxisSizes, AxisDims, SizeMap, SelectedSizes, DimFits, ShownPlainly, AxesMatch, Plain;
    NoAxes(doc, sample);
    if sample.dims.Some? {
      PlainDims(doc, sample.dims.value);
      DimsShown(rules, doc, selection, sample.dims.value);
      if sample.ids.Some? && sample.sizes.Some? {
        PlainSizes(doc, sample);
        AxesShown(doc, selection, sample.ids.value, sample.sizes.value);
      }
    }
  }

  lemma DimsShown(rules: Rules, doc: Document, selection: map<string, seq<string>>, dims: map<string, SampleDim>)
    requires Matches(doc, selection)
    ensures dims.Keys == doc.dims.Keys <==> forall code :: code in dims <==> code in doc.ids
    ensures dims.Keys == doc.dims.Keys ==>
      ((forall code :: code in selection ==> DimFits(rules, dims[code], selection[code]))
       <==> forall code :: code in doc.ids && code in dims ==> ShownPlainly(rules, dims[code], selection[code]))
  {
    hide DimFits, ShownPlainly;
    assert forall code :: code in doc.dims <==> code in doc.ids;
    forall code | code in doc.ids && code in dims
      ensures DimFits(rules, dims[code], selection[code]) <==> ShownPlainly(rules, dims[code], selection[code])
    {
      DimShown(rules, dims[code], selection[code]);
    }
  }

  lemma PlainDims(doc: Document, dims: map<string, SampleDim>)
    requires Plain(doc, dims)
    ensures AxisDims(doc, dims) == Some(dims)
  {
  }

  lemma PlainSizes(doc: Document, sample: Sample)
    requires sample.ids.Some? && sample.sizes.Some? && sample.dims.Some? && Plain(doc, sample.dims.value)
    ensures AxisSizes(doc, sample) ==
      if |sample.ids.value| != |sample.sizes.value| || |Elements(sample.ids.value)| != |sample.ids.value| then None
      else Some(SizeMap(sample.ids.value, sample.sizes.value))
  {
  }

  // ---- What enrichment preserves ----------------------------------------------------------------

  /** The canonical part of a dimension: its title, its categories, and every extension value it had. */
  ghost predicate SameStructure(before: DocDim, after: DocDim) {
    && after.title == before.title
    && after.category.index == before.category.index && after.category.labels == before.category.labels
    && forall key :: key in before.extension ==> key in after.extension && after.extension[key] == before.extension[key]
  }

  /** Every value a dataset-level extension had is still there. */
  ghost predicate ExtensionKept(before: map<string, Json>, after: map<string, Json>) {
    forall key :: key in before ==> key in after && after[key] == before[key]
  }

  /** The sample brings no PX settings, or nothing that the metadata's own would give way to. */
  predicate PxAgrees(extension: map<string, Json>, px: map<string, Json>) {
    px == map[] || "px" !in extension || extension["px"] == Object(px)
  }

  /** A per-category field is the old one or speaks of selected categories only. */
  predicate FieldSelected(before: Option<map<string, Json>>, after: Option<map<string, Json>>, selected: seq<string>) {
    after == before || (after.Some? && after.value.Keys <= Elements(selected))
  }

  ghost predicate FieldsSelected(before: DocCategory, after: DocCategory, selected: seq<string>) {
    && FieldSelected(before.unit, after.unit, selected)
    && FieldSelected(before.note, after.note, selected)
    && FieldSelected(before.coordinates, after.coordinates, selected)
  }

  /** Every accepted sample leaves the structure of the metadata as it was. */
  lemma StructurePreserved(rules: Rules, doc: Document, selection: map<string, seq<string>>,
                           sample: Sample)
    requires Matches(doc, selection) && Accepts(rules, doc, selection, sample)
    ensures var after := Enriched(rules, doc, selection, sample);
            && after.identity == doc.identity && after.ids == doc.ids && after.dims.Keys == doc.dims.Keys
            && ExtensionKept(doc.extension - {"px"}, after.extension)
            && (ExtensionKept(doc.extension, after.extension) <==> PxAgrees(doc.extension, FixedPx(sample.extension)))
            && forall code :: code in doc.dims ==>
                 && SameStructure(doc.dims[code], after.dims[code])
                 && FieldsSelected(doc.dims[code].category, after.dims[code].category, selection[code])
  {
    hide SameStructure, FieldsSelected, Accepts, Enriched;
    RestPreserved(rules, doc, selection, sample);
    forall code | code in doc.dims
      ensures SameStructure(doc.dims[code], Enriched(rules, doc, selection, sample).dims[code])
      ensures FieldsSelected(doc.dims[code].category, Enriched(rules, doc, selection, sample).dims[code].category,
                              selection[code])
    {
      DimensionPreserved(rules, doc, selection, sample, code);
    }
  }

  lemma RestPreserved(rules: Rules, doc: Document, selection: map<string, seq<string>>, sample: Sample)
    requires Matches(doc, selection) && Accepts(rules, doc, selection, sample)
    ensures var after := Enriched(rules, doc, selection, sample);
            && after.identity == doc.identity && after.ids == doc.ids && after.dims.Keys == doc.dims.Keys
            && ExtensionKept(doc.extension - {"px"}, after.extension)
            && (ExtensionKept(doc.extension, after.extension) <==> PxAgrees(doc.extension, FixedPx(sample.extension)))
  {
    hide AxisSizes, AxisDims, SelectedSizes, MergedDim, DimFits, FixedPx;
  }

  lemma DimensionPreserved(rules: Rules, doc: Document, selection: map<string, seq<string>>,
                           sample: Sample, code: string)
    requires Matches(doc, selection) && Accepts(rules, doc, selection, sample) && code in doc.dims
    ensures SameStructure(doc.dims[code], Enriched(rules, doc, selection, sample).dims[code])
    ensures FieldsSelected(doc.dims[code].category, Enriched(rules, doc, selection, sample).dims[code].category,
              selection[code])
  {
    NoAxes(doc, sample);
    hide AxisSizes, AxisDims, SelectedSizes, SameStructure, FieldsSelected, MergedDim, DimFits, FixedPx, PxFits, WithPx;
    var dims := AxisDims(doc, sample.dims.value).value;
    FitsShape(rules, dims[code], selection[code]);
    MergedDimPreserves(rules, doc.dims[code], dims[code], selection[code]);
  }

  lemma MergedDimPreserves(rules: Rules, target: DocDim, dim: SampleDim, selected: seq<string>)
    requires DimFits(rules, dim, selected)
    ensures SameStructure(target, MergedDim(rules, target, dim))
    ensures FieldsSelected(target.category, MergedDim(rules, target, dim).category, selected)
  {
  }

  /** A field of the sample arrives, and without one the metadata keeps its own. */
  predicate FieldArrives(field: Option<Json>, before: Option<map<string, Json>>, after: Option<map<string, Json>>) {
    if field.None? then after == before else field.value.Object? && after == Some(field.value.fields)
  }

  predicate UnitsArrive(rules: Rules, unit: Option<Json>, before: Option<map<string, Json>>,
                        after: Option<map<string, Json>>) {
    if unit.None? then after == before
    else unit.value.Object? && after.Some? && after.value.Keys == unit.value.fields.Keys
         && forall k :: k in after.value ==> Some(after.value[k]) == rules.reshape(unit.value.fields[k])
  }

  /** Nothing the sample says about a dimension is lost, except extension values the metadata already has. */
  ghost predicate CarriedOver(rules: Rules, dim: SampleDim, before: DocDim, after: DocDim) {
    && dim.SampleDim? && dim.category.Some? && dim.extension.Object?
    && after.note == (if dim.note.Some? then dim.note else before.note)
    && after.link == (if dim.link.Some? then dim.link else before.link)
    && after.extension.Keys == before.extension.Keys + dim.extension.fields.Keys
    && (forall k :: k in dim.extension.fields && k !in before.extension ==>
        after.extension[k] == dim.extension.fields[k])
    && UnitsArrive(rules, dim.category.value.unit, before.category.unit, after.category.unit)
    && FieldArrives(dim.category.value.note, before.category.note, after.category.note)
    && FieldArrives(dim.category.value.coordinates, before.category.coordinates, after.category.coordinates)
  }

  lemma MergedDimCarries(rules: Rules, target: DocDim, dim: SampleDim, selected: seq<string>)
    requires DimFits(rules, dim, selected)
    ensures CarriedOver(rules, dim, target, MergedDim(rules, target, dim))
  {
  }

  /** What an accepted sample says about a dimension arrives in the document. */
  lemma SampleCarriedOver(rules: Rules, doc: Document, selection: map<string, seq<string>>,
                          sample: Sample, code: string)
    requires Matches(doc, selection) && Accepts(rules, doc, selection, sample) && code in doc.dims
    ensures sample.dims.Some? && AxisDims(doc, sample.dims.value).Some?
              && code in AxisDims(doc, sample.dims.value).value
    ensures CarriedOver(rules, AxisDims(doc, sample.dims.value).value[code], doc.dims[code],
                        Enriched(rules, doc, selection, sample).dims[code])
  {
    NoAxes(doc, sample);
    hide AxisSizes, AxisDims, SelectedSizes, CarriedOver, MergedDim, DimFits, FixedPx, PxFits, WithPx;
    var dims := AxisDims(doc, sample.dims.value).value;
    FitsShape(rules, dims[code], selection[code]);
    MergedDimCarries(rules, doc.dims[code], dims[code], selection[code]);
  }

  /** The values of a subject other than its code and label. */
  function OtherValues(subject: Option<map<string, Json>>): map<string, Json> {
    if subject.Some? then subject.value - {"code", "label"} else map[]
  }

  function SubjectValue(subject: Option<map<string, Json>>, field: string): Option<Json> {
    if subject.Some? && field in subject.value then Some(subject.value[field]) else None
  }

  /** The settings that the sample has under `extension.px`. */
  predicate HasPx(sample: Sample, key: string, value: Json) {
    && sample.extension.Object? && "px" in sample.extension.fields && sample.extension.fields["px"].Object?
    && key in sample.extension.fields["px"].fields && sample.extension.fields["px"].fields[key] == value
  }

  /** A non-blank text under `key` arrives, and without one the old value stays. */
  ghost predicate PxTextArrives(rules: Rules, sample: Sample, key: string, before: Option<Json>, after: Option<Json>) {
    && (forall text :: HasPx(sample, key, Text(text)) && !rules.blank(text) ==> after == Some(Text(text)))
    && ((forall text :: HasPx(sample, key, Text(text)) ==> rules.blank(text)) ==> after == before)
  }

  /** A field of the sample replaces the document's, and without it the document keeps its own. */
  predicate Replaces(field: Option<Json>, before: Option<Json>, after: Option<Json>) {
    if field.Some? then after == field else after == before
  }

  /** The subject's code and label arrive, and its other values stay. */
  ghost predicate SubjectArrives(rules: Rules, sample: Sample, before: Option<map<string, Json>>,
                                 after: Option<map<string, Json>>) {
    && PxTextArrives(rules, sample, "subject-code", SubjectValue(before, "code"), SubjectValue(after, "code"))
    && PxTextArrives(rules, sample, "subject-area", SubjectValue(before, "label"), SubjectValue(after, "label"))
    && OtherValues(after) == OtherValues(before) && (after.None? ==> before.None?)
  }

  ghost predicate FlagArrives(rules: Rules, sample: Sample, before: Option<bool>, after: Option<bool>) {
    && (forall v :: HasPx(sample, "official-statistics", v) ==>
          after == if rules.flag(v).Some? then rules.flag(v) else before)
    && ((forall v :: !HasPx(sample, "official-statistics", v)) ==> after == before)
  }

  /** The PX settings arrive without the axis layout. */
  ghost predicate PxArrives(sample: Sample, extension: map<string, Json>) {
    forall key, v :: HasPx(sample, key, v) && key != "heading" && key != "stub" ==>
      && "px" in extension && extension["px"].Object?
      && key in extension["px"].fields && extension["px"].fields[key] == v
      && "heading" !in extension["px"].fields && "stub" !in extension["px"].fields
  }

  /**
   What a sample says about the dataset arrives: its source, its note, the non-blank texts among its PX
   settings each at its place, the flag, and the settings themselves apart from the axis layout.
   */
  lemma TextsCarriedOver(rules: Rules, doc: Document, selection: map<string, seq<string>>, sample: Sample)
    requires Matches(doc, selection) && Accepts(rules, doc, selection, sample)
    ensures var before, enriched := doc.texts, Enriched(rules, doc, selection, sample);
            && Replaces(sample.source, before.source, enriched.texts.source)
            && Replaces(sample.note, before.note, enriched.texts.note)
            && PxTextArrives(rules, sample, "description", before.description, enriched.texts.description)
            && SubjectArrives(rules, sample, before.subject, enriched.texts.subject)
            && FlagArrives(rules, sample, before.official, enriched.texts.official)
            && PxArrives(sample, enriched.extension)
  {
    hide DimFits, MergedDim, AxisDims, AxisSizes, SelectedSizes, Usable, Flag, WithSubject, FlagArrives, PxArrives;
    hide PxTextArrives, SubjectArrives, HasPx, FixedPx, Px, WithPx, PxFits;
    DescriptionMerged(rules, sample, doc.texts.description);
    SubjectMerged(rules, sample, doc.texts.subject);
    FlagMerged(rules, sample, doc.texts.official);
    PxMerged(sample, doc.extension);
  }

  lemma DescriptionMerged(rules: Rules, sample: Sample, before: Option<Json>)
    requires PxFits(sample.extension)
    ensures PxTextArrives(rules, sample, "description", before,
                          OrElse(Usable(rules, Px(sample.extension), "description"), before))
  {
    hide Usable, Px, HasPx;
    PxTextKnown(rules, sample, Px(sample.extension), "description");
  }

  lemma SubjectMerged(rules: Rules, sample: Sample, before: Option<map<string, Json>>)
    requires PxFits(sample.extension)
    ensures var px := Px(sample.extension);
            SubjectArrives(rules, sample, before,
                           WithSubject(WithSubject(before, "code", Usable(rules, px, "subject-code")),
                                       "label", Usable(rules, px, "subject-area")))
  {
    hide Usable, Px, HasPx;
    var px := Px(sample.extension);
    PxTextKnown(rules, sample, px, "subject-code");
    PxTextKnown(rules, sample, px, "subject-area");
    SubjectValues(before, Usable(rules, px, "subject-code"), Usable(rules, px, "subject-area"));
  }

  lemma SubjectValues(before: Option<map<string, Json>>, code: Option<Json>, area: Option<Json>)
    ensures var after := WithSubject(WithSubject(before, "code", code), "label", area);
            && SubjectValue(after, "code") == OrElse(code, SubjectValue(before, "code"))
            && SubjectValue(after, "label") == OrElse(area, SubjectValue(before, "label"))
            && OtherValues(after) == OtherValues(before) && (after.None? ==> before.None?)
  {
  }

  lemma FlagMerged(rules: Rules, sample: Sample, before: Option<bool>)
    requires PxFits(sample.extension)
    ensures FlagArrives(rules, sample, before, OrElse(Flag(rules, Px(sample.extension)), before))
  {
    var px := Px(sample.extension);
    if "official-statistics" in px {
      assert HasPx(sample, "official-statistics", px["official-statistics"]);
    }
  }

  lemma PxMerged(sample: Sample, extension: map<string, Json>)
    requires PxFits(sample.extension)
    ensures PxArrives(sample, WithPx(extension, FixedPx(sample.extension)))
  {
    forall key, v | HasPx(sample, key, v) && key != "heading" && key != "stub"
      ensures key in FixedPx(sample.extension)
    {
    }
  }

  ghost predicate PxText(rules: Rules, sample: Sample, px: map<string, Json>, key: string) {
    && (forall text :: HasPx(sample, key, Text(text)) && !rules.blank(text) ==>
          Usable(rules, px, key) == Some(Text(text)))
    && ((forall text :: HasPx(sample, key, Text(text)) ==> rules.blank(text)) ==> Usable(rules, px, key) == None)
  }

  lemma PxTextKnown(rules: Rules, sample: Sample, px: map<string, Json>, key: string)
    requires PxFits(sample.extension) && px == Px(sample.extension)
    ensures PxText(rules, sample, px, key)
  {
    if key in px && px[key].Text? {
      assert HasPx(sample, key, Text(px[key].text));
    }
  }

  // ---- Enriching again --------------------------------------------------------------------------

  /** The views of the sample depend only on the structure of the document. */
  lemma SameViews(doc: Document, other: Document, sample: Sample)
    requires other.dims.Keys == doc.dims.Keys
    requires CONTENTS in doc.dims ==> other.dims[CONTENTS].category.index == doc.dims[CONTENTS].category.index
    ensures AxisSizes(other, sample) == AxisSizes(doc, sample)
    ensures sample.dims.Some? ==> AxisDims(other, sample.dims.value) == AxisDims(doc, sample.dims.value)
  {
  }

  lemma AcceptedAgain(rules: Rules, doc: Document, other: Document, selection: map<string, seq<string>>,
                      sample: Sample)
    requires Matches(doc, selection) && other.dims.Keys == doc.dims.Keys && Accepts(rules, doc, selection, sample)
    requires AxisSizes(other, sample) == AxisSizes(doc, sample)
    requires sample.dims.Some? ==> AxisDims(other, sample.dims.value) == AxisDims(doc, sample.dims.value)
    ensures Accepts(rules, other, selection, sample) && sample.dims.Some?
  {
    NoAxes(doc, sample);
    hide DimFits, AxisDims, AxisSizes, SelectedSizes, PxFits;
  }

  lemma AddTwice<T>(a: map<string, T>, b: map<string, T>)
    ensures a + (a + b) == a + b
  {
  }

  lemma MergingTwice(rules: Rules, target: DocDim, dim: SampleDim)
    requires Fits(rules, dim)
    ensures MergedDim(rules, MergedDim(rules, target, dim), dim) == MergedDim(rules, target, dim)
  {
    AddTwice(dim.extension.fields, target.extension);
  }

  lemma TextsTwice(rules: Rules, texts: Texts, px: map<string, Json>, sample: Sample)
    ensures var once := WithTexts(rules, texts, px, sample); WithTexts(rules, once, px, sample) == once
  {
    hide WithSubject, Usable, Flag;
    SubjectTwice(texts.subject, Usable(rules, px, "subject-code"), Usable(rules, px, "subject-area"));
  }

  lemma SubjectTwice(subject: Option<map<string, Json>>, code: Option<Json>, area: Option<Json>)
    ensures var once := WithSubject(WithSubject(subject, "code", code), "label", area);
            WithSubject(WithSubject(once, "code", code), "label", area) == once
  {
    var once := WithSubject(WithSubject(subject, "code", code), "label", area);
    if code.Some? {
      assert once.value["code" := code.value] == once.value;
    }
    if area.Some? {
      assert once.value["label" := area.value] == once.value;
    }
  }

  /** An accepted sample is accepted again by its own result. */
  lemma ResultAccepts(rules: Rules, doc: Document, selection: map<string, seq<string>>, sample: Sample)
    requires Matches(doc, selection) && Accepts(rules, doc, selection, sample)
    ensures var once := Enriched(rules, doc, selection, sample);
            && Matches(once, selection) && Accepts(rules, once, selection, sample)
            && AxisDims(once, sample.dims.value) == AxisDims(doc, sample.dims.value)
  {
    hide Accepts, Enriched, AxisDims, AxisSizes, FieldsSelected;
    var once := Enriched(rules, doc, selection, sample);
    StructurePreserved(rules, doc, selection, sample);
    SameViews(doc, once, sample);
    AcceptedAgain(rules, doc, once, selection, sample);
  }

  lemma DimensionsTwice(rules: Rules, doc: Document, selection: map<string, seq<string>>, sample: Sample)
    requires Matches(doc, selection) && Accepts(rules, doc, selection, sample)
    ensures AxisDims(doc, sample.dims.value).Some?
    ensures var once, dims := Enriched(rules, doc, selection, sample), AxisDims(doc, sample.dims.value).value;
            forall code :: code in doc.dims ==>
              Fits(rules, dims[code]) && MergedDim(rules, once.dims[code], dims[code]) == once.dims[code]
  {
    NoAxes(doc, sample);
    hide DimFits, MergedDim, AxisDims, AxisSizes, SelectedSizes, FixedPx, PxFits, WithPx, WithTexts;
    var dims := AxisDims(doc, sample.dims.value).value;
    forall code | code in doc.dims
      ensures Fits(rules, dims[code])
      ensures MergedDim(rules, MergedDim(rules, doc.dims[code], dims[code]), dims[code])
              == MergedDim(rules, doc.dims[code], dims[code])
    {
      FitsShape(rules, dims[code], selection[code]);
      MergingTwice(rules, doc.dims[code], dims[code]);
    }
  }

  /** Enriching is idempotent: an accepted sample is accepted again by its own result, and changes nothing. */
  lemma EnrichingTwice(rules: Rules, doc: Document, selection: map<string, seq<string>>, sample: Sample)
    requires Matches(doc, selection) && Accepts(rules, doc, selection, sample)
    ensures var once := Enriched(rules, doc, selection, sample);
            && Matches(once, selection) && Accepts(rules, once, selection, sample)
            && Enriched(rules, once, selection, sample) == once
  {
    var once := Enriched(rules, doc, selection, sample);
    ResultAccepts(rules, doc, selection, sample);
    DimensionsTwice(rules, doc, selection, sample);
    RestTwice(rules, doc, selection, sample);
    hide Matches, Accepts, Enriched, AxisDims, MergedDim, Fits;
    NothingToMerge(rules, once, selection, sample);
  }

  /** The parts of a document outside its dimensions. */
  predicate RestMerged(rules: Rules, doc: Document, sample: Sample) {
    && PxFits(sample.extension) && WithPx(doc.extension, FixedPx(sample.extension)) == doc.extension
    && WithTexts(rules, doc.texts, Px(sample.extension), sample) == doc.texts
  }

  lemma RestTwice(rules: Rules, doc: Document, selection: map<string, seq<string>>, sample: Sample)
    requires Matches(doc, selection) && Accepts(rules, doc, selection, sample)
    ensures RestMerged(rules, Enriched(rules, doc, selection, sample), sample)
  {
    TextsTwice(rules, doc.texts, Px(sample.extension), sample);
    hide DimFits, MergedDim, AxisDims, AxisSizes, SelectedSizes, FixedPx, PxFits, WithTexts, Px;
  }

  lemma NothingToMerge(rules: Rules, doc: Document, selection: map<string, seq<string>>, sample: Sample)
    requires Matches(doc, selection) && Accepts(rules, doc, selection, sample) && RestMerged(rules, doc, sample)
    requires forall code :: code in doc.dims && code in AxisDims(doc, sample.dims.value).value ==>
               var dim := AxisDims(doc, sample.dims.value).value[code];
               Fits(rules, dim) && MergedDim(rules, doc.dims[code], dim) == doc.dims[code]
    ensures Enriched(rules, doc, selection, sample) == doc
  {
    hide DimFits, MergedDim, AxisDims, AxisSizes, SelectedSizes, FixedPx, PxFits, WithTexts, Px, WithPx;
    assert Enriched(rules, doc, selection, sample).dims == doc.dims;
  }

  // ---- The order of the sample's axes -----------------------------------------------------------

  /** `p` with inverse `q` takes one list of axes, each with its size, to the other. */
  ghost predicate Permuted(ids: seq<string>, sizes: seq<int>, ids': seq<string>, sizes': seq<int>, p: seq<nat>,
                           q: seq<nat>) {
    && |ids| == |sizes| == |ids'| == |sizes'| == |p| == |q|
    && (forall i :: 0 <= i < |p| ==> p[i] < |p| && q[p[i]] == i && ids'[i] == ids[p[i]] && sizes'[i] == sizes[p[i]])
    && (forall i :: 0 <= i < |q| ==> q[i] < |q| && p[q[i]] == i)
  }

  lemma PermutedSizes(ids: seq<string>, sizes: seq<int>, ids': seq<string>, sizes': seq<int>, p: seq<nat>, q: seq<nat>)
    requires Permuted(ids, sizes, ids', sizes', p, q)
    ensures Elements(ids') == Elements(ids)
    ensures Distinct(ids) ==> SizeMap(ids', sizes') == SizeMap(ids, sizes)
  {
    forall x | x in ids ensures x in ids' {
      var i :| 0 <= i < |ids| && ids[i] == x;
      assert p[q[i]] == i;
      assert ids'[q[i]] == x;
    }
    assert forall x :: x in ids' ==> x in ids;
    if Distinct(ids) {
      forall i, j | 0 <= i < j < |ids'| ensures ids'[i] != ids'[j] {
        assert q[p[i]] == i && q[p[j]] == j;
        assert p[i] != p[j];
      }
      SizeMapAt(ids, sizes);
      SizeMapIs(ids', sizes', SizeMap(ids, sizes));
    }
  }

  /** Listing the axes of a sample in another order changes neither its acceptance nor the result. */
  lemma AxisOrderIrrelevant(rules: Rules, doc: Document, selection: map<string, seq<string>>,
                            sample: Sample, ids: seq<string>, sizes: seq<int>, p: seq<nat>, q: seq<nat>)
    requires Matches(doc, selection) && sample.ids.Some? && sample.sizes.Some?
    requires Permuted(sample.ids.value, sample.sizes.value, ids, sizes, p, q)
    ensures var reordered := sample.(ids := Some(ids), sizes := Some(sizes));
            && (Accepts(rules, doc, selection, reordered) <==> Accepts(rules, doc, selection, sample))
            && (Accepts(rules, doc, selection, sample) ==>
                  Enriched(rules, doc, selection, reordered) == Enriched(rules, doc, selection, sample))
  {
    hide DimFits, MergedDim, AxisDims, SelectedSizes, SizeMap, Synthetic, Permuted;
    PermutedSizes(sample.ids.value, sample.sizes.value, ids, sizes, p, q);
    DistinctIffSize(sample.ids.value);
    assert |ids| == |sample.ids.value| && |sizes| == |sample.sizes.value| by {
      PermutedLengths(sample.ids.value, sample.sizes.value, ids, sizes, p, q);
    }
    assert AxisSizes(doc, sample.(ids := Some(ids), sizes := Some(sizes))) == AxisSizes(doc, sample);
  }

  lemma PermutedLengths(ids: seq<string>, sizes: seq<int>, ids': seq<string>, sizes': seq<int>, p: seq<nat>,
                        q: seq<nat>)
    requires Permuted(ids, sizes, ids', sizes', p, q)
    ensures |ids| == |sizes| == |ids'| == |sizes'|
  {
  }

  // ---- The stand-in for the contents dimension --------------------------------------------------

  /** Acceptance and result depend on the sample only through these three views of it. */
  lemma SameViewsSameResult(rules: Rules, doc: Document, selection: map<string, seq<string>>,
                            one: Sample, two: Sample)
    requires Matches(doc, selection) && one.dims.Some? && two.dims.Some?
    requires AxisSizes(doc, one) == AxisSizes(doc, two)
              && AxisDims(doc, one.dims.value) == AxisDims(doc, two.dims.value)
    requires one == two.(ids := one.ids, sizes := one.sizes, dims := one.dims)
    ensures Accepts(rules, doc, selection, one) <==> Accepts(rules, doc, selection, two)
    ensures Accepts(rules, doc, selection, one) ==>
              Enriched(rules, doc, selection, one) == Enriched(rules, doc, selection, two)
  {
    hide DimFits, MergedDim, AxisDims, AxisSizes, SelectedSizes, FixedPx;
  }

  function Inserted<T>(s: seq<T>, p: nat, x: T): seq<T>
    requires p <= |s|
  {
    s[..p] + [x] + s[p..]
  }

  /** The sample with a synthetic contents axis of some size at position `p`. */
  function WithSyntheticAxis(sample: Sample, p: nat, size: int, dim: SampleDim): Sample
    requires sample.ids.Some? && sample.sizes.Some? && sample.dims.Some?
    requires p <= |sample.ids.value| == |sample.sizes.value|
  {
    sample.(ids := Some(Inserted(sample.ids.value, p, CONTENTS)),
            sizes := Some(Inserted(sample.sizes.value, p, size)),
            dims := Some(sample.dims.value[CONTENTS := dim]))
  }

  lemma InsertedDistinct(ids: seq<string>, p: nat)
    requires p <= |ids| && CONTENTS !in ids
    ensures Distinct(Inserted(ids, p, CONTENTS)) <==> Distinct(ids)
    ensures Without(Inserted(ids, p, CONTENTS), p) == ids
  {
    var more := Inserted(ids, p, CONTENTS);
    assert |more| == |ids| + 1;
    if Distinct(more) {
      forall i, j | 0 <= i < j < |ids| ensures ids[i] != ids[j] {
        assert ids[i] == more[if i < p then i else i + 1];
        assert ids[j] == more[if j < p then j else j + 1];
      }
    }
    if Distinct(ids) {
      forall i, j | 0 <= i < j < |more| ensures more[i] != more[j] {
        assert i != p ==> more[i] == ids[if i < p then i else i - 1];
        assert j != p ==> more[j] == ids[if j < p then j else j - 1];
      }
    }
  }

  lemma InsertedSizeMap(ids: seq<string>, sizes: seq<int>, p: nat, size: int)
    requires p <= |ids| == |sizes| && CONTENTS !in ids && Distinct(ids)
    ensures var m := SizeMap(Inserted(ids, p, CONTENTS), Inserted(sizes, p, size));
            CONTENTS in m && m[CONTENTS] == size && m - {CONTENTS} == SizeMap(ids, sizes)
  {
    var ids', sizes' := Inserted(ids, p, CONTENTS), Inserted(sizes, p, size);
    InsertedDistinct(ids, p);
    InsertedShape(ids, sizes, p, size);
    hide Inserted, SizeMap, Without, Distinct;
    SizeMapAt(ids', sizes');
    SizeMapWithout(ids', sizes', p);
    assert ids'[p] in SizeMap(ids', sizes');
  }

  lemma InsertedSizes(doc: Document, sample: Sample, p: nat, size: int, dim: SampleDim)
    requires sample.ids.Some? && sample.sizes.Some? && sample.dims.Some?
    requires p <= |sample.ids.value| == |sample.sizes.value|
    requires CONTENTS !in doc.dims && CONTENTS !in sample.dims.value && CONTENTS !in sample.ids.value
    requires ShowsMarker(dim)
    ensures AxisSizes(doc, WithSyntheticAxis(sample, p, size, dim)) ==
            if size == 1 then AxisSizes(doc, sample) else None
  {
    var ids, sizes := sample.ids.value, sample.sizes.value;
    assert Synthetic(doc, sample.dims.value[CONTENTS := dim]) && !Synthetic(doc, sample.dims.value);
    InsertedDistinct(ids, p);
    DistinctIffSize(ids);
    DistinctIffSize(Inserted(ids, p, CONTENTS));
    InsertedShape(ids, sizes, p, size);
    hide Inserted, SizeMap, Without, Distinct, IsPlaceholder, Synthetic;
    if Distinct(ids) {
      InsertedSizeMap(ids, sizes, p, size);
    }
  }

  lemma InsertedShape(ids: seq<string>, sizes: seq<int>, p: nat, size: int)
    requires p <= |ids| == |sizes|
    ensures var ids', sizes' := Inserted(ids, p, CONTENTS), Inserted(sizes, p, size);
            && |ids'| == |sizes'| == |ids| + 1 && ids'[p] == CONTENTS && sizes'[p] == size
                && Without(sizes', p) == sizes
  {
  }

  /** A synthetic axis changes nothing if its size is 1, and is refused with any other size. */
  lemma SyntheticAxisIgnored(rules: Rules, doc: Document, selection: map<string, seq<string>>,
                             sample: Sample, p: nat, size: int, dim: SampleDim)
    requires Matches(doc, selection) && sample.ids.Some? && sample.sizes.Some? && sample.dims.Some?
    requires p <= |sample.ids.value| == |sample.sizes.value|
    requires CONTENTS !in doc.dims && CONTENTS !in sample.dims.value && CONTENTS !in sample.ids.value
    requires ShowsMarker(dim)
    ensures var more := WithSyntheticAxis(sample, p, size, dim);
            && (Accepts(rules, doc, selection, more) <==> size == 1 && Accepts(rules, doc, selection, sample))
            && (Accepts(rules, doc, selection, more) ==>
                  Enriched(rules, doc, selection, more) == Enriched(rules, doc, selection, sample))
  {
    InsertedSizes(doc, sample, p, size, dim);
    var more := WithSyntheticAxis(sample, p, size, dim);
    assert AxisDims(doc, more.dims.value) == Some(sample.dims.value) == AxisDims(doc, sample.dims.value) by {
      assert more.dims.value - {CONTENTS} == sample.dims.value;
    }
    if size == 1 {
      SameViewsSameResult(rules, doc, selection, more, sample);
    }
    hide DimFits, MergedDim, AxisDims, AxisSizes, SelectedSizes, FixedPx, PxFits, WithSyntheticAxis;
  }

  /** A per-category field keyed by the real code, keyed by the stand-in. */
  function MarkField(field: Option<Json>, code: string): Option<Json>
    requires FieldFits(field, {code})
  {
    if field.None? then None
    else
      var fields := field.value.fields;
      Some(Object(if fields == map[] then map[] else map[MARKER := fields[code]]))
  }

  /** The dimension as an exporter shows it that hides the sole contents code. */
  function Marked(dim: SampleDim, code: string, list: bool): SampleDim
    requires dim.SampleDim? && dim.category.Some?
    requires var c := dim.category.value;
             FieldFits(c.unit, {code}) && FieldFits(c.note, {code}) && FieldFits(c.coordinates, {code})
  {
    var c := dim.category.value;
    dim.(category := Some(SampleCategory(if list then Listed([MARKER]) else Numbered(map[MARKER := 0]),
                                         MarkField(c.unit, code), MarkField(c.note, code),
                                         MarkField(c.coordinates, code))))
  }

  lemma RemapUndoesMark(field: Option<Json>, code: string)
    requires FieldFits(field, {code})
    ensures RemapField(MarkField(field, code), code) == Some(field)
  {
    if field.Some? {
      var fields := field.value.fields;
      if fields != map[] {
        var k :| k in fields;
        assert fields == map[code := fields[code]];
      }
    }
  }

  lemma RemapMarker(field: Option<Json>)
    requires FieldFits(field, {MARKER})
    ensures RemapField(field, MARKER) == Some(field)
  {
    if field.Some? && field.value.fields != map[] {
      var fields := field.value.fields;
      var k :| k in fields;
      assert fields == map[MARKER := fields[MARKER]];
    }
  }

  /** Hiding the sole contents code behind the stand-in changes neither acceptance nor result. */
  lemma MarkerStandsForSoleCode(rules: Rules, doc: Document, selection: map<string, seq<string>>,
                                sample: Sample, code: string, list: bool)
    requires Matches(doc, selection) && sample.dims.Some?
    requires CONTENTS in doc.dims && doc.dims[CONTENTS].category.index == map[code := 0]
    requires CONTENTS in sample.dims.value
    requires var dim := sample.dims.value[CONTENTS];
             && dim.SampleDim? && dim.category.Some? && dim.category.value.index == Numbered(map[code := 0])
             && FieldFits(dim.category.value.unit, {code}) && FieldFits(dim.category.value.note, {code})
             && FieldFits(dim.category.value.coordinates, {code})
    ensures var marked := Marked(sample.dims.value[CONTENTS], code, list);
            var hidden := sample.(dims := Some(sample.dims.value[CONTENTS := marked]));
            && (Accepts(rules, doc, selection, hidden) <==> Accepts(rules, doc, selection, sample))
            && (Accepts(rules, doc, selection, hidden) ==>
                  Enriched(rules, doc, selection, hidden) == Enriched(rules, doc, selection, sample))
  {
    var dims := sample.dims.value;
    var dim := dims[CONTENTS];
    var c := dim.category.value;
    var marked := Marked(dim, code, list);
    var hidden := sample.(dims := Some(dims[CONTENTS := marked]));
    RemapUndoesMark(c.unit, code);
    RemapUndoesMark(c.note, code);
    RemapUndoesMark(c.coordinates, code);
    assert RemapContents(marked, code) == Some(dim);
    assert SoleKey(doc.dims[CONTENTS].category.index) == code;
    assert dims[CONTENTS := marked][CONTENTS := dim] == dims;
    assert AxisDims(doc, hidden.dims.value) == Some(dims);
    assert AxisDims(doc, dims) == Some(dims) by { OwnMarkerStays(doc, dims, code); }
    SameViewsSameResult(rules, doc, selection, hidden, sample);
  }

  /** Where the stand-in replaces the sole code, a per-category field that speaks of anything else is refused. */
  lemma StrayKeysRefused(rules: Rules, doc: Document, selection: map<string, seq<string>>, sample: Sample,
                         field: Json, key: string)
    requires Matches(doc, selection) && sample.dims.Some? && CONTENTS in doc.dims && CONTENTS in sample.dims.value
    requires |doc.dims[CONTENTS].category.index| == 1 && ShowsMarker(sample.dims.value[CONTENTS])
    requires var c := sample.dims.value[CONTENTS].category.value;
             field.Object? && (c.unit == Some(field) || c.note == Some(field) || c.coordinates == Some(field))
    requires key in field.fields && key != "EliminatedValue"
    ensures !Accepts(rules, doc, selection, sample)
  {
    assert RemapField(Some(field), SoleKey(doc.dims[CONTENTS].category.index)) == None;
    assert AxisDims(doc, sample.dims.value) == None;
    hide AxisSizes, AxisDims, DimFits;
  }

  /** A sole contents code that happens to be spelled like the stand-in is left as it is. */
  lemma OwnMarkerStays(doc: Document, dims: map<string, SampleDim>, code: string)
    requires CONTENTS in doc.dims && doc.dims[CONTENTS].category.index == map[code := 0] && CONTENTS in dims
    requires var dim := dims[CONTENTS];
             && dim.SampleDim? && dim.category.Some? && dim.category.value.index == Numbered(map[code := 0])
             && FieldFits(dim.category.value.unit, {code}) && FieldFits(dim.category.value.note, {code})
             && FieldFits(dim.category.value.coordinates, {code})
    ensures AxisDims(doc, dims) == Some(dims)
  {
    if code == MARKER {
      var c := dims[CONTENTS].category.value;
      RemapMarker(c.unit);
      RemapMarker(c.note);
      RemapMarker(c.coordinates);
      assert SoleKey(doc.dims[CONTENTS].category.index) == MARKER;
      assert RemapContents(dims[CONTENTS], MARKER) == Some(dims[CONTENTS]);
      assert dims[CONTENTS := dims[CONTENTS]] == dims;
    } else {
      assert code in map[code := 0] && code !in map[MARKER := 0];
    }
  }
}
