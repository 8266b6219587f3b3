/** The text of a generated module and its source map: laid out in
    python/sdpstudio_codegen/python_backend.py, looked up in python/sdpstudio_runners/local.py, and
    split into ownership regions in python/sdpstudio_codegen/reconcile.py. */
module SourceMap {
  import opened Sorting
  import opened Documents
  import opened PythonNames
  import opened PythonProgram

  /** The lines printed for one node of a definition. */
  datatype Part = Part(node: string, lines: seq<Line>)

  /** One generated definition: decorator and signature, a part per node, and the return. */
  datatype Definition = Definition(node: string, head: seq<Line>, parts: seq<Part>, tail: seq<Line>)

  function PartText(parts: seq<Part>): seq<Line> {
    if parts == [] then [] else PartText(parts[..|parts| - 1]) + parts[|parts| - 1].lines
  }

  function DefinitionText(def: Definition): seq<Line> { def.head + PartText(def.parts) + def.tail }

  function ModuleText(defs: seq<Definition>): seq<Line> {
    if defs == [] then [] else ModuleText(defs[..|defs| - 1]) + DefinitionText(defs[|defs| - 1])
  }

  /** Lines are counted from 1; first and last are included. */
  datatype SourceRange = SourceRange(node: string, first: nat, last: nat)

  /** One one-line range per part, at the first line of the part; base lines precede the parts. */
  function PartRanges(parts: seq<Part>, base: nat): seq<SourceRange> {
    if parts == [] then []
    else
      var before := parts[..|parts| - 1];
      var at := base + |PartText(before)| + 1;
      PartRanges(before, base) + [SourceRange(parts[|parts| - 1].node, at, at)]
  }

  /** The range of a definition: from its first line to its return statement. */
  function OutputRange(def: Definition, base: nat): SourceRange {
    SourceRange(def.node, base + 1, base + |def.head| + |PartText(def.parts)| + 1)
  }

  function DefinitionRanges(def: Definition, base: nat): seq<SourceRange> {
    PartRanges(def.parts, base + |def.head|) + [OutputRange(def, base)]
  }

  function ModuleRanges(defs: seq<Definition>, base: nat): seq<SourceRange> {
    if defs == [] then []
    else
      var before := defs[..|defs| - 1];
      ModuleRanges(before, base) + DefinitionRanges(defs[|defs| - 1], base + |ModuleText(before)|)
  }

  lemma PartsGrow(parts: seq<Part>, part: Part, base: nat)
    ensures PartText(parts + [part]) == PartText(parts) + part.lines
    ensures PartRanges(parts + [part], base)
            == PartRanges(parts, base) + [SourceRange(part.node, base + |PartText(parts)| + 1, base + |PartText(parts)| + 1)]
  {
    assert (parts + [part])[..|parts|] == parts;
  }

  /** lines and ranges are the text and the source map of parts after base lines. */
  ghost predicate LaidOut(parts: seq<Part>, base: nat, lines: seq<Line>, ranges: seq<SourceRange>) {
    lines == PartText(parts) && ranges == PartRanges(parts, base)
  }

  lemma LaidOutGrows(parts: seq<Part>, base: nat, lines: seq<Line>, ranges: seq<SourceRange>, part: Part, range: SourceRange)
    requires LaidOut(parts, base, lines, ranges) && range.node == part.node
    requires range.first == range.last == base + |lines| + 1
    ensures LaidOut(parts + [part], base, lines + part.lines, ranges + [range])
  {
    PartsGrow(parts, part, base);
  }

  lemma DefinitionAssembles(def: Definition, base: nat, start: nat, lines: seq<Line>, ranges: seq<SourceRange>,
                            range: SourceRange)
    requires start == base + |def.head| && LaidOut(def.parts, start, lines, ranges)
    requires range.node == def.node && range.first == base + 1 && range.last == start + |lines| + 1
    ensures def.head + lines + def.tail == DefinitionText(def)
    ensures ranges + [range] == DefinitionRanges(def, base)
  {
  }

  lemma ModuleGrows(defs: seq<Definition>, def: Definition, base: nat)
    ensures ModuleText(defs + [def]) == ModuleText(defs) + DefinitionText(def)
    ensures ModuleRanges(defs + [def], base)
            == ModuleRanges(defs, base) + DefinitionRanges(def, base + |ModuleText(defs)|)
  {
    assert (defs + [def])[..|defs|] == defs;
  }

  // ---- The ranges are laminar ----

  /** Every definition has a head and a tail, every part a line. */
  ghost predicate Solid(def: Definition) {
    && |def.head| >= 2 && |def.tail| >= 1
    && forall i :: 0 <= i < |def.parts| ==> def.parts[i].lines != []
  }

  predicate IsPoint(r: SourceRange) { r.first == r.last }

  /** Ranges inside lines lo+1 to hi: points in increasing order, outputs one after another, and each
      point strictly inside an output. */
  ghost predicate Laminar(ranges: seq<SourceRange>, lo: nat, hi: nat) {
    && (forall i :: 0 <= i < |ranges| ==> lo < ranges[i].first <= ranges[i].last <= hi)
    && (forall i, j :: 0 <= i < j < |ranges| && IsPoint(ranges[i]) && IsPoint(ranges[j]) ==> ranges[i].first < ranges[j].first)
    && (forall i, j :: 0 <= i < j < |ranges| && !IsPoint(ranges[i]) && !IsPoint(ranges[j]) ==> ranges[i].last < ranges[j].first)
    && (forall i :: 0 <= i < |ranges| && IsPoint(ranges[i]) ==> Enclosed(ranges, ranges[i]))
  }

  ghost predicate Enclosed(ranges: seq<SourceRange>, p: SourceRange) {
    exists o :: o in ranges && o.first < p.first < o.last
  }

  lemma LaminarAppend(a: seq<SourceRange>, b: seq<SourceRange>, lo: nat, mid: nat, hi: nat)
    requires Laminar(a, lo, mid) && Laminar(b, mid, hi) && lo <= mid <= hi
    ensures Laminar(a + b, lo, hi)
  {
    var c := a + b;
    forall i | 0 <= i < |c| && IsPoint(c[i]) ensures Enclosed(c, c[i]) {
      if i < |a| {
        assert Enclosed(a, a[i]);
        var o :| o in a && o.first < a[i].first < o.last;
        assert o in c;
      } else {
        assert Enclosed(b, b[i - |a|]);
        var o :| o in b && o.first < b[i - |a|].first < o.last;
        assert o in c;
      }
    }
  }

  lemma {:induction false} PartRangesWithin(parts: seq<Part>, base: nat)
    requires forall i :: 0 <= i < |parts| ==> parts[i].lines != []
    ensures |PartRanges(parts, base)| == |parts|
    ensures forall r :: r in PartRanges(parts, base) ==> IsPoint(r) && base < r.first <= base + |PartText(parts)|
  {
    if parts != [] { PartRangesWithin(parts[..|parts| - 1], base); }
  }

  lemma {:induction false} PartRangesIncrease(parts: seq<Part>, base: nat)
    requires forall i :: 0 <= i < |parts| ==> parts[i].lines != []
    ensures |PartRanges(parts, base)| == |parts|
    ensures forall r :: r in PartRanges(parts, base) ==> IsPoint(r) && base < r.first <= base + |PartText(parts)|
    ensures forall i, j :: 0 <= i < j < |parts| ==> PartRanges(parts, base)[i].first < PartRanges(parts, base)[j].first
  {
    PartRangesWithin(parts, base);
    if parts != [] {
      var before := parts[..|parts| - 1];
      PartRangesIncrease(before, base);
      var rs := PartRanges(before, base);
      var at := base + |PartText(before)| + 1;
      assert forall i :: 0 <= i < |rs| ==> rs[i] in rs;
      OneMorePoint(rs, SourceRange(parts[|parts| - 1].node, at, at));
    }
  }

  lemma OneMorePoint(rs: seq<SourceRange>, last: SourceRange)
    requires forall i, j :: 0 <= i < j < |rs| ==> rs[i].first < rs[j].first
    requires forall i :: 0 <= i < |rs| ==> rs[i].first < last.first
    ensures forall i, j :: 0 <= i < j < |rs| + 1 ==> (rs + [last])[i].first < (rs + [last])[j].first
  {
  }

  /** Increasing points inside one output. */
  lemma PointsInOutput(points: seq<SourceRange>, output: SourceRange, lo: nat, hi: nat)
    requires lo < output.first < output.last <= hi
    requires forall i :: 0 <= i < |points| ==> IsPoint(points[i]) && output.first < points[i].first < output.last
    requires forall i, j :: 0 <= i < j < |points| ==> points[i].first < points[j].first
    ensures Laminar(points + [output], lo, hi)
  {
    assert output in points + [output];
  }

  lemma DefinitionLaminar(def: Definition, base: nat)
    requires Solid(def)
    ensures Laminar(DefinitionRanges(def, base), base, base + |DefinitionText(def)|)
  {
    var start := base + |def.head|;
    PartRangesIncrease(def.parts, start);
    var points, output := PartRanges(def.parts, start), OutputRange(def, base);
    assert forall i :: 0 <= i < |points| ==> points[i] in points;
    PointsInOutput(points, output, base, base + |DefinitionText(def)|);
  }

  /** The whole source map is laminar. */
  lemma {:induction false} ModuleLaminar(defs: seq<Definition>, base: nat)
    requires forall i :: 0 <= i < |defs| ==> Solid(defs[i])
    ensures Laminar(ModuleRanges(defs, base), base, base + |ModuleText(defs)|)
  {
    if defs != [] {
      var before := defs[..|defs| - 1];
      var mid := base + |ModuleText(before)|;
      var last := defs[|defs| - 1];
      ModuleLaminar(before, base);
      DefinitionLaminar(last, mid);
      SplitLast(defs);
      ModuleGrows(before, last, base);
      LaminarAppend(ModuleRanges(before, base), DefinitionRanges(last, mid), base, mid, mid + |DefinitionText(last)|);
    }
  }

  // ---- Where the ranges point ----

  lemma {:induction false} PartRangeAt(parts: seq<Part>, base: nat, i: nat)
    requires i < |parts| && parts[i].lines != []
    ensures |PartRanges(parts, base)| == |parts|
    ensures var r := PartRanges(parts, base)[i];
            && IsPoint(r) && r.node == parts[i].node && base < r.first <= base + |PartText(parts)|
            && PartText(parts)[r.first - base - 1] == parts[i].lines[0]
  {
    PartRangeCount(parts, base);
    if i < |parts| - 1 { PartRangeAt(parts[..|parts| - 1], base, i); }
  }

  lemma {:induction false} PartRangeCount(parts: seq<Part>, base: nat)
    ensures |PartRanges(parts, base)| == |parts|
  {
    if parts != [] { PartRangeCount(parts[..|parts| - 1], base); }
  }

  /** text holds, at the range of a node, the first line printed for it; at the range of an output, its
      decorator and its return. */
  ghost predicate PointsInto(def: Definition, text: seq<Line>, base: nat, r: SourceRange) {
    && base < r.first <= r.last <= base + |text|
    && ((!IsPoint(r) && r.node == def.node && def.head != [] && def.tail != []
         && text[r.first - base - 1] == def.head[0] && text[r.last - base - 1] == def.tail[0])
        || (IsPoint(r) && exists part :: part in def.parts && part.lines != [] && part.node == r.node
                                         && text[r.first - base - 1] == part.lines[0]))
  }

  lemma DefinitionRangeAt(def: Definition, base: nat, r: SourceRange)
    requires Solid(def) && r in DefinitionRanges(def, base)
    ensures PointsInto(def, DefinitionText(def), base, r)
  {
    var start := base + |def.head|;
    var points, text := PartRanges(def.parts, start), DefinitionText(def);
    PartRangeCount(def.parts, start);
    if r in points {
      var i :| 0 <= i < |points| && points[i] == r;
      PartRangeAt(def.parts, start, i);
      assert text[r.first - base - 1] == PartText(def.parts)[r.first - start - 1];
      assert def.parts[i] in def.parts;
    }
  }

  lemma {:induction false} ModuleRangeAt(defs: seq<Definition>, base: nat, r: SourceRange)
    requires (forall i :: 0 <= i < |defs| ==> Solid(defs[i])) && r in ModuleRanges(defs, base)
    ensures exists def :: def in defs && PointsInto(def, ModuleText(defs), base, r)
  {
    var before, last := defs[..|defs| - 1], defs[|defs| - 1];
    var mid := base + |ModuleText(before)|;
    SplitLast(defs);
    if r in ModuleRanges(before, base) {
      ModuleRangeAt(before, base, r);
      var def :| def in before && PointsInto(def, ModuleText(before), base, r);
      PointsLonger(def, ModuleText(before), DefinitionText(last), base, r);
      assert def in defs;
    } else {
      DefinitionRangeAt(last, mid, r);
      PointsLater(last, ModuleText(before), DefinitionText(last), base, mid, r);
      assert last in defs;
    }
  }

  lemma PointsLonger(def: Definition, text: seq<Line>, more: seq<Line>, base: nat, r: SourceRange)
    requires PointsInto(def, text, base, r)
    ensures PointsInto(def, text + more, base, r)
  {
  }

  lemma PointsLater(def: Definition, before: seq<Line>, text: seq<Line>, base: nat, mid: nat, r: SourceRange)
    requires mid == base + |before| && PointsInto(def, text, mid, r)
    ensures PointsInto(def, before + text, base, r)
  {
    assert (before + text)[r.first - base - 1] == text[r.first - mid - 1];
    assert (before + text)[r.last - base - 1] == text[r.last - mid - 1];
  }

  // ---- Looking a line up ----

  predicate Covers(r: SourceRange, line: nat) { r.first <= line <= r.last }

  function CoversLine(line: nat): SourceRange -> bool { (r: SourceRange) => Covers(r, line) }

  /** `min(candidates, key=end - start)`: the first of the smallest. */
  function Smallest(rs: seq<SourceRange>): SourceRange
    requires rs != []
    requires forall r :: r in rs ==> r.first <= r.last
  {
    if |rs| == 1 then rs[0]
    else
      var rest := Smallest(rs[1..]);
      if rs[0].last - rs[0].first <= rest.last - rest.first then rs[0] else rest
  }

  lemma {:induction false} SmallestIsLeast(rs: seq<SourceRange>)
    requires rs != [] && forall r :: r in rs ==> r.first <= r.last
    ensures Smallest(rs) in rs
    ensures forall r :: r in rs ==> Smallest(rs).last - Smallest(rs).first <= r.last - r.first
  {
    if |rs| > 1 { SmallestIsLeast(rs[1..]); }
    assert rs == [rs[0]] + rs[1..];
  }

  ghost predicate Forward(rs: seq<SourceRange>) { forall r :: r in rs ==> r.first <= r.last }

  lemma CandidatesForward(rs: seq<SourceRange>, line: nat)
    requires Forward(rs)
    ensures Forward(Filter(CoversLine(line), rs))
  {
    FilterMembers(CoversLine(line), rs);
  }

  /** `_node_for_generated_line`. */
  function NodeForLine(rs: seq<SourceRange>, line: nat): Option<SourceRange>
    requires Forward(rs)
  {
    CandidatesForward(rs, line);
    var candidates := Filter(CoversLine(line), rs);
    if candidates == [] then None else Some(Smallest(candidates))
  }

  /** The first of the smallest ranges around a line. */
  ghost predicate FirstSmallest(rs: seq<SourceRange>, line: nat, k: nat)
    requires k < |rs|
  {
    && Covers(rs[k], line)
    && forall j :: 0 <= j < |rs| && Covers(rs[j], line) ==>
         if j < k then rs[k].last - rs[k].first < rs[j].last - rs[j].first
         else rs[k].last - rs[k].first <= rs[j].last - rs[j].first
  }

  /** Looking a line up finds the first of the smallest ranges around it, and nothing exactly when there is none. */
  lemma {:induction false} LookupIsFirstSmallest(rs: seq<SourceRange>, line: nat)
    requires Forward(rs)
    ensures NodeForLine(rs, line).None? <==> forall j :: 0 <= j < |rs| ==> !Covers(rs[j], line)
    ensures NodeForLine(rs, line).Some? ==>
              exists k :: 0 <= k < |rs| && FirstSmallest(rs, line, k) && NodeForLine(rs, line) == Some(rs[k])
  {
    if rs != [] {
      var rest := rs[1..];
      assert rs == [rs[0]] + rest;
      LookupIsFirstSmallest(rest, line);
      LookupUnfolds(rs, line);
      if NodeForLine(rest, line).None? {
        if Covers(rs[0], line) { assert FirstSmallest(rs, line, 0); }
      } else {
        var k :| 0 <= k < |rest| && FirstSmallest(rest, line, k) && NodeForLine(rest, line) == Some(rest[k]);
        if Covers(rs[0], line) && rs[0].last - rs[0].first <= rest[k].last - rest[k].first {
          assert FirstSmallest(rs, line, 0);
        } else {
          assert FirstSmallest(rs, line, k + 1);
        }
      }
    }
  }

  lemma LookupUnfolds(rs: seq<SourceRange>, line: nat)
    requires rs != [] && Forward(rs)
    ensures Forward(rs[1..])
    ensures NodeForLine(rs, line) ==
            if !Covers(rs[0], line) then NodeForLine(rs[1..], line)
            else if NodeForLine(rs[1..], line).None?
                    || rs[0].last - rs[0].first <= NodeForLine(rs[1..], line).value.last - NodeForLine(rs[1..], line).value.first
            then Some(rs[0])
            else NodeForLine(rs[1..], line)
  {
    assert rs == [rs[0]] + rs[1..];
    CandidatesForward(rs, line);
    CandidatesForward(rs[1..], line);
    var candidates, rest := Filter(CoversLine(line), rs), Filter(CoversLine(line), rs[1..]);
    assert CoversLine(line)(rs[0]) <==> Covers(rs[0], line);
    if Covers(rs[0], line) {
      assert candidates == [rs[0]] + rest && candidates[1..] == rest;
      assert NodeForLine(rs, line) == Some(Smallest(candidates));
    } else {
      assert candidates == [] + rest == rest;
    }
  }

  lemma CandidatesAre(rs: seq<SourceRange>, line: nat)
    ensures forall r :: r in Filter(CoversLine(line), rs) <==> r in rs && Covers(r, line)
  {
    FilterMembers(CoversLine(line), rs);
    forall r ensures r in Filter(CoversLine(line), rs) <==> r in rs && Covers(r, line) {
      assert CoversLine(line)(r) <==> Covers(r, line);
    }
  }

  lemma PointInsideOutput(rs: seq<SourceRange>, lo: nat, hi: nat, p: SourceRange) returns (o: SourceRange)
    requires Laminar(rs, lo, hi) && p in rs && IsPoint(p)
    ensures o in rs && !IsPoint(o) && o.first < p.first < o.last
  {
    assert Enclosed(rs, p);
    o :| o in rs && o.first < p.first < o.last;
  }

  /** Looking a line up has one answer: the node whose range starts there; failing that, the output
      around it; and nothing exactly when no definition is around it. */
  lemma LookupFindsNode(rs: seq<SourceRange>, lo: nat, hi: nat, line: nat)
    requires Laminar(rs, lo, hi)
    ensures Forward(rs)
    ensures forall p :: p in rs && IsPoint(p) && p.first == line ==> NodeForLine(rs, line) == Some(p)
    ensures (forall p :: p in rs && IsPoint(p) ==> p.first != line) ==>
              forall o :: o in rs && !IsPoint(o) && Covers(o, line) ==> NodeForLine(rs, line) == Some(o)
    ensures NodeForLine(rs, line).None? <==> forall o :: o in rs && !IsPoint(o) ==> !Covers(o, line)
  {
    var candidates := Filter(CoversLine(line), rs);
    CandidatesAre(rs, line);
    if candidates != [] {
      SmallestIsLeast(candidates);
      assert candidates[0] in candidates;
      if IsPoint(candidates[0]) {
        var o := PointInsideOutput(rs, lo, hi, candidates[0]);
      }
    }
  }

  // ---- Physical lines ----

  /** The physical lines that the first entries of a text take; an entry of custom code may take several. */
  function Height(height: Line -> nat, text: seq<Line>): nat {
    if text == [] then 0 else Height(height, text[..|text| - 1]) + height(text[|text| - 1])
  }

  /** A range counts entries: the entry after the first k starts at physical line k + 1 exactly when those take
      one line each, so code of several lines shifts every later range. */
  lemma {:induction false} PositionsArePhysical(height: Line -> nat, text: seq<Line>)
    requires forall i :: 0 <= i < |text| ==> height(text[i]) >= 1
    ensures Height(height, text) >= |text|
    ensures Height(height, text) == |text| <==> forall i :: 0 <= i < |text| ==> height(text[i]) == 1
  {
    if text != [] {
      var before := text[..|text| - 1];
      PositionsArePhysical(height, before);
      forall i | 0 <= i < |before| ensures before[i] == text[i] {}
    }
  }

  // ---- Ownership markers ----

  /** A marked stretch of lines and its owner: the visual model, or custom code. */
  datatype Region = Region(first: nat, last: nat, node: string, custom: bool)

  /** A marker's node is matched as a run of non-blank characters. */
  predicate CleanId(id: string) { id != "" && forall c :: c in id ==> !IsSpace(c) }

  /** The regions that `parse_ownership_markers` reads from lines; pending is its open region. */
  function Regions(lines: seq<Line>, base: nat, pending: Option<(nat, string, bool)>): seq<Region> {
    if lines == [] then []
    else if lines[0].RegionStart? && CleanId(lines[0].node) then
      Regions(lines[1..], base + 1, Some((base + 1, lines[0].node, lines[0].custom)))
    else if pending.Some? && lines[0].RegionEnd? then
      [Region(pending.value.0, base + 1, pending.value.1, pending.value.2)] + Regions(lines[1..], base + 1, None)
    else Regions(lines[1..], base + 1, pending)
  }

  /** `parse_ownership_markers`. */
  method ParseOwnershipMarkers(lines: seq<Line>) returns (regions: seq<Region>)
    ensures regions == Regions(lines, 0, None)
  {
    regions := [];
    var pending: Option<(nat, string, bool)> := None;
    assert lines[0..] == lines;
    for i := 0 to |lines|
      invariant regions + Regions(lines[i..], i, pending) == Regions(lines, 0, None)
    {
      assert lines[i..][0] == lines[i] && lines[i..][1..] == lines[i + 1..];
      if lines[i].RegionStart? && CleanId(lines[i].node) {
        pending := Some((i + 1, lines[i].node, lines[i].custom));
      } else if pending.Some? && lines[i].RegionEnd? {
        regions := regions + [Region(pending.value.0, i + 1, pending.value.1, pending.value.2)];
        pending := None;
      }
    }
    assert lines[|lines|..] == [];
  }

  ghost predicate Plain(lines: seq<Line>) {
    forall i :: 0 <= i < |lines| ==> !lines[i].RegionStart? && !lines[i].RegionEnd?
  }

  /** A part between its two markers. */
  ghost predicate Wrapped(part: Part) {
    exists inner :: Plain(inner) && part.lines == [RegionStart(part.node, false)] + inner + [RegionEnd]
  }

  /** The region of each part whose id survives the marker syntax. */
  function PartRegions(parts: seq<Part>, base: nat): seq<Region> {
    if parts == [] then []
    else
      var before, last := parts[..|parts| - 1], parts[|parts| - 1];
      var at := base + |PartText(before)|;
      PartRegions(before, base)
      + (if CleanId(last.node) then [Region(at + 1, at + |last.lines|, last.node, false)] else [])
  }

  function ModuleRegions(defs: seq<Definition>, base: nat): seq<Region> {
    if defs == [] then []
    else
      var before, last := defs[..|defs| - 1], defs[|defs| - 1];
      ModuleRegions(before, base) + PartRegions(last.parts, base + |ModuleText(before)| + |last.head|)
  }

  lemma {:induction false} PlainSkipped(lines: seq<Line>, rest: seq<Line>, base: nat, pending: Option<(nat, string, bool)>)
    requires Plain(lines)
    ensures Regions(lines + rest, base, pending) == Regions(rest, base + |lines|, pending)
  {
    if lines == [] {
      assert lines + rest == rest;
    } else {
      assert (lines + rest)[0] == lines[0] && (lines + rest)[1..] == lines[1..] + rest;
      PlainSkipped(lines[1..], rest, base + 1, pending);
    }
  }

  lemma PartParses(part: Part, rest: seq<Line>, base: nat)
    requires Wrapped(part)
    ensures Regions(part.lines + rest, base, None)
            == (if CleanId(part.node) then [Region(base + 1, base + |part.lines|, part.node, false)] else [])
               + Regions(rest, base + |part.lines|, None)
  {
    var inner :| Plain(inner) && part.lines == [RegionStart(part.node, false)] + inner + [RegionEnd];
    var all := part.lines + rest;
    var close := [RegionEnd] + rest;
    assert all[0] == RegionStart(part.node, false) && all[1..] == inner + close;
    var pending := if CleanId(part.node) then Some((base + 1, part.node, false)) else None;
    PlainSkipped(inner, close, base + 1, pending);
    assert close[0] == RegionEnd && close[1..] == rest;
    assert |part.lines| == |inner| + 2;
  }

  lemma {:induction false} PartsParse(parts: seq<Part>, rest: seq<Line>, base: nat)
    requires forall i :: 0 <= i < |parts| ==> Wrapped(parts[i])
    ensures Regions(PartText(parts) + rest, base, None)
            == PartRegions(parts, base) + Regions(rest, base + |PartText(parts)|, None)
  {
    if parts == [] {
      assert PartText(parts) + rest == rest;
    } else {
      var before, last := parts[..|parts| - 1], parts[|parts| - 1];
      PartsParse(before, last.lines + rest, base);
      PartParses(last, rest, base + |PartText(before)|);
      assert PartText(parts) + rest == PartText(before) + (last.lines + rest);
    }
  }

  lemma DefinitionParses(def: Definition, rest: seq<Line>, base: nat)
    requires Plain(def.head) && Plain(def.tail) && forall i :: 0 <= i < |def.parts| ==> Wrapped(def.parts[i])
    ensures Regions(DefinitionText(def) + rest, base, None)
            == PartRegions(def.parts, base + |def.head|) + Regions(rest, base + |DefinitionText(def)|, None)
  {
    var body := PartText(def.parts);
    var at := base + |def.head|;
    PlainSkipped(def.head, body + (def.tail + rest), base, None);
    PartsParse(def.parts, def.tail + rest, at);
    PlainSkipped(def.tail, rest, at + |body|, None);
    assert DefinitionText(def) + rest == def.head + (body + (def.tail + rest));
  }

  ghost predicate Marked(def: Definition) {
    Plain(def.head) && Plain(def.tail) && forall i :: 0 <= i < |def.parts| ==> Wrapped(def.parts[i])
  }

  /** Whatever follows, the parser reads these regions from a text and goes on after it. */
  ghost predicate ParsesTo(text: seq<Line>, base: nat, regions: seq<Region>) {
    forall rest :: Regions(text + rest, base, None) == regions + Regions(rest, base + |text|, None)
  }

  lemma ParsesJoin(a: seq<Line>, b: seq<Line>, base: nat, before: seq<Region>, last: seq<Region>)
    requires ParsesTo(a, base, before) && ParsesTo(b, base + |a|, last)
    ensures ParsesTo(a + b, base, before + last)
  {
    forall rest ensures Regions(a + b + rest, base, None) == before + last + Regions(rest, base + |a + b|, None) {
      AppendAssociates(a, b, rest);
      AppendAssociates(before, last, Regions(rest, base + |a| + |b|, None));
    }
  }

  lemma ModuleSplits(defs: seq<Definition>, base: nat)
    requires defs != []
    ensures var before, last := defs[..|defs| - 1], defs[|defs| - 1];
            && ModuleText(defs) == ModuleText(before) + DefinitionText(last)
            && ModuleRegions(defs, base)
               == ModuleRegions(before, base) + PartRegions(last.parts, base + |ModuleText(before)| + |last.head|)
  {
  }

  lemma DefinitionParsesTo(def: Definition, base: nat)
    requires Marked(def)
    ensures ParsesTo(DefinitionText(def), base, PartRegions(def.parts, base + |def.head|))
  {
    forall rest
      ensures Regions(DefinitionText(def) + rest, base, None)
              == PartRegions(def.parts, base + |def.head|) + Regions(rest, base + |DefinitionText(def)|, None)
    {
      DefinitionParses(def, rest, base);
    }
  }

  /** Parsing the markers of a generated module returns exactly the parts, in order, whose ids are
      non-empty and free of blanks. */
  lemma {:induction false} MarkersRoundTrip(defs: seq<Definition>, base: nat)
    requires forall i :: 0 <= i < |defs| ==> Marked(defs[i])
    ensures ParsesTo(ModuleText(defs), base, ModuleRegions(defs, base))
  {
    if defs == [] {
      forall rest ensures Regions([] + rest, base, None) == [] + Regions(rest, base, None) { assert [] + rest == rest; }
    } else {
      var before, last := defs[..|defs| - 1], defs[|defs| - 1];
      var at := base + |ModuleText(before)|;
      MarkersRoundTrip(before, base);
      DefinitionParsesTo(last, at);
      ModuleSplits(defs, base);
      ParsesJoin(ModuleText(before), DefinitionText(last), base, ModuleRegions(before, base), PartRegions(last.parts, at + |last.head|));
    }
  }
}
