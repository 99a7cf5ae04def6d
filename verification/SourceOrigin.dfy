/**
  Positions of nodes inside nested language regions, translated to the document
  (crates/daemon/src/syntax.rs): a region's origin is chained onto its parent's, and node points are
  shifted onto the origin.
*/
module SourceOrigin {
  import opened Numbers
  import opened TextPosition

  const U32_MAX := U32 - 1

  /** A zero-based position, as tree-sitter reports it. */
  datatype Point = Point(row: nat, column: nat)
  /** A one-based line and zero-based column, as the response carries them. */
  datatype Position = Position(line: nat, column: nat)
  datatype Origin = Origin(start: nat, row: nat, column: nat, prefix: nat)

  function Saturating(n: nat): (r: nat)
    ensures r <= U32_MAX
  {
    if n <= U32_MAX then n else U32_MAX
  }

  /** Where an offset of a text is. */
  function PointAt(text: Text, offset: nat): Point
    requires offset <= |text|
  {
    Point(Rows(text[..offset]), Column(text[..offset]))
  }

  /** `source_origin`: an offset outside the source counts as its beginning. */
  function OriginIn(source: Text, start: nat): Origin {
    var leading := if start <= |source| then source[..start] else [];
    Origin(start, Rows(leading), Column(leading), 0)
  }

  /** The nested branch of `build_injected_tree_node`: an origin found in a slice, onto the slice's. */
  function Chained(parent: Origin, source: Text, start: nat, prefix: nat): Origin {
    var local := OriginIn(source, Monus(start, parent.start));
    Origin(start, parent.row + local.row,
           if local.row == 0 then parent.column + local.column else local.column, prefix)
  }

  /** `translated_point`. */
  function Translated(point: Point, origin: Origin): Position {
    Position(Saturating(Saturating(origin.row + point.row) + 1),
             Saturating(if point.row == 0 then origin.column + Monus(point.column, origin.prefix) else point.column))
  }

  /** The byte half of the translation, in the first lines of `build_injected_tree_node`. */
  function TranslatedByte(offset: nat, origin: Origin): nat {
    origin.start + Monus(offset, origin.prefix)
  }

  /** What the document itself says about one of its offsets. */
  function Direct(document: Text, offset: nat): Position
    requires offset <= |document|
  {
    var p := PointAt(document, offset);
    Position(Saturating(Saturating(p.row) + 1), Saturating(p.column))
  }

  // ---- any depth of nesting --------------------------------------------------------------------------

  datatype Slice = Slice(start: nat, end: nat)

  /** A slice of the document, or of the slice around it, always in document offsets. */
  datatype Chain = Outermost(slice: Slice) | Within(outer: Chain, slice: Slice)

  predicate Nested(document: Text, chain: Chain) {
    && chain.slice.start <= chain.slice.end <= |document|
    && (chain.Within? ==>
          && Nested(document, chain.outer)
          && chain.outer.slice.start <= chain.slice.start && chain.slice.end <= chain.outer.slice.end)
  }

  lemma SliceOfSlice(document: Text, outer: Slice, inner: Slice)
    requires outer.start <= inner.start <= inner.end <= outer.end <= |document|
    ensures document[outer.start..outer.end][inner.start - outer.start..inner.end - outer.start]
         == document[inner.start..inner.end]
  {
  }

  /** The text of the innermost slice, cut out of the slice around it. */
  function InnerText(document: Text, chain: Chain): (t: Text)
    requires Nested(document, chain)
    ensures t == document[chain.slice.start..chain.slice.end]
  {
    match chain
    case Outermost(slice) => document[slice.start..slice.end]
    case Within(outer, slice) =>
      assert Nested(document, outer);
      SliceOfSlice(document, outer.slice, slice);
      InnerText(document, outer)[slice.start - outer.slice.start..slice.end - outer.slice.start]
  }

  /** The origin the renderer arrives at for the innermost slice, level by level. */
  function InnerOrigin(document: Text, chain: Chain, prefix: nat): Origin
    requires Nested(document, chain)
  {
    match chain
    case Outermost(slice) => OriginIn(document, slice.start).(prefix := prefix)
    case Within(outer, slice) =>
      Chained(InnerOrigin(document, outer, 0), InnerText(document, outer), slice.start, prefix)
  }

  /** A position in a slice, relative to where the slice starts. */
  lemma PositionInSlice(document: Text, slice: Slice, offset: nat)
    requires slice.start <= slice.end <= |document| && offset <= slice.end - slice.start
    ensures var local := PointAt(document[slice.start..slice.end], offset);
            var base := PointAt(document, slice.start);
            && PointAt(document, slice.start + offset) ==
               Point(base.row + local.row, if local.row == 0 then base.column + local.column else local.column)
            && (local.row == 0 ==> local.column == offset)
  {
    var local := document[slice.start..slice.end][..offset];
    assert document[..slice.start + offset] == document[..slice.start] + local;
    PositionAppend(document[..slice.start], local);
  }

  /** However deep the nesting, the chained origin is where the document says the slice starts. */
  lemma {:induction false} ChainedOriginIsDirect(document: Text, chain: Chain, prefix: nat)
    requires Nested(document, chain)
    ensures InnerOrigin(document, chain, prefix) == OriginIn(document, chain.slice.start).(prefix := prefix)
  {
    if chain.Within? {
      ChainedOriginIsDirect(document, chain.outer, 0);
      PositionInSlice(document, chain.outer.slice, chain.slice.start - chain.outer.slice.start);
    }
  }

  /** A prefix without newlines only shifts the first row. */
  lemma PositionBehindPrefix(prefix: Text, text: Text, offset: nat)
    requires Rows(prefix) == 0 && offset <= |text|
    ensures var p := PointAt(text, offset);
            PointAt(prefix + text, |prefix| + offset) ==
            Point(p.row, if p.row == 0 then |prefix| + p.column else p.column)
  {
    assert (prefix + text)[..|prefix| + offset] == prefix + text[..offset];
    PositionAppend(prefix, text[..offset]);
    PositionAppend([], prefix);
    assert [] + prefix == prefix;
  }

  lemma TranslatedShift(p: Point, origin: Origin)
    ensures Translated(Point(p.row, if p.row == 0 then origin.prefix + p.column else p.column), origin) ==
            Position(Saturating(Saturating(origin.row + p.row) + 1),
                     Saturating(if p.row == 0 then origin.column + p.column else p.column))
  {
  }

  lemma TranslationInSlice(document: Text, slice: Slice, prefix: Text, offset: nat)
    requires slice.start <= slice.end <= |document| && offset <= slice.end - slice.start
    requires Rows(prefix) == 0
    ensures var origin := OriginIn(document, slice.start).(prefix := |prefix|);
            var at := PointAt(prefix + document[slice.start..slice.end], |prefix| + offset);
            Translated(at, origin) == Direct(document, slice.start + offset)
  {
    var text := document[slice.start..slice.end];
    PositionInSlice(document, slice, offset);
    PositionBehindPrefix(prefix, text, offset);
    TranslatedShift(PointAt(text, offset), OriginIn(document, slice.start).(prefix := |prefix|));
  }

  /**
    For any offset of the innermost slice, even one parsed behind a synthetic prefix without
    newlines, the translated byte, line and column are the document's own.
  */
  lemma TranslationIsDirect(document: Text, chain: Chain, text: Text, prefix: Text, offset: nat)
    requires Nested(document, chain) && text == document[chain.slice.start..chain.slice.end]
    requires Rows(prefix) == 0
    requires offset <= |text|
    ensures var origin := InnerOrigin(document, chain, |prefix|);
            var at := PointAt(prefix + text, |prefix| + offset);
            && TranslatedByte(|prefix| + offset, origin) == chain.slice.start + offset
            && Translated(at, origin) == Direct(document, chain.slice.start + offset)
  {
    ChainedOriginIsDirect(document, chain, |prefix|);
    TranslationInSlice(document, chain.slice, prefix, offset);
  }

  /** In a document within 32 bits the position is the number of newlines before it, plus one, and the bytes since the last. */
  lemma {:induction false} TranslationInRange(document: Text, chain: Chain, text: Text, prefix: Text, offset: nat)
    requires Nested(document, chain) && text == document[chain.slice.start..chain.slice.end]
    requires Rows(prefix) == 0 && offset <= |text| && |document| < 0xFFFF_FFFF
    ensures var at := chain.slice.start + offset;
            Translated(PointAt(prefix + text, |prefix| + offset), InnerOrigin(document, chain, |prefix|))
            == Position(Rows(document[..at]) + 1, Column(document[..at]))
  {
    TranslationIsDirect(document, chain, text, prefix, offset);
  }

  // ---- a parent that was itself parsed behind a prefix ----------------------------------------------------

  /** Text shifted by a prefix, cut at the same offset: its end is misplaced once a newline is involved. */
  lemma MisreadBehindPrefix(prefix: Text, head: Text, tail: Text)
    requires Rows(prefix) == 0 && |tail| == |prefix| > 0 && Rows(head + tail) > 0
    ensures Rows(prefix + head) != Rows(head + tail) || Column(prefix + head) != Column(head + tail)
  {
    PositionAppend(prefix, head);
    PositionAppend(head, tail);
  }

  lemma NewlineFreeCut(prefix: Text, text: Text, k: nat)
    requires Rows(prefix) == 0 && k <= |text| && Rows(text[..k]) == 0
    ensures var cut := (prefix + text)[..k]; Rows(cut) == 0 && Column(cut) == k
  {
    var cut := (prefix + text)[..k];
    if k <= |prefix| {
      assert cut == prefix[..k] && prefix == prefix[..k] + prefix[k..];
      PositionAppend(prefix[..k], prefix[k..]);
    } else {
      var head := text[..k - |prefix|];
      assert cut == prefix + head && text[..k] == head + text[k - |prefix|..k];
      PositionAppend(head, text[k - |prefix|..k]);
      PositionAppend(prefix, head);
    }
    PositionAppend([], cut);
    assert [] + cut == cut;
  }

  lemma NewlineCut(prefix: Text, text: Text, k: nat)
    requires Rows(prefix) == 0 && prefix != [] && k <= |text| && Rows(text[..k]) > 0
    ensures var cut := (prefix + text)[..k];
            Rows(cut) != Rows(text[..k]) || Column(cut) != Column(text[..k])
  {
    var cut := (prefix + text)[..k];
    if k <= |prefix| {
      assert cut == prefix[..k] && prefix == prefix[..k] + prefix[k..];
      PositionAppend(prefix[..k], prefix[k..]);
    } else {
      var head, tail := text[..k - |prefix|], text[k - |prefix|..k];
      assert cut == prefix + head && text[..k] == head + tail;
      MisreadBehindPrefix(prefix, head, tail);
    }
  }

  /** When a cut of the shifted text ends where the same cut of the text itself does. */
  lemma CutAgrees(behind: Text, text: Text, k: nat, cut: Text)
    requires Rows(behind) == 0 && k <= |text| && cut == (behind + text)[..k]
    ensures Rows(cut) == Rows(text[..k]) && Column(cut) == Column(text[..k]) <==>
            behind == [] || Rows(text[..k]) == 0
  {
    if behind == [] {
      assert behind + text == text;
    } else if Rows(text[..k]) == 0 {
      NewlineFreeCut(behind, text, k);
      PositionAppend([], text[..k]);
      assert [] + text[..k] == text[..k];
    } else {
      NewlineCut(behind, text, k);
    }
  }

  function Continued(base: Origin, k: nat, rows: nat, column: nat, prefix: nat): Origin {
    Origin(base.start + k, base.row + rows, if rows == 0 then base.column + column else column, prefix)
  }

  lemma ContinuedAgree(base: Origin, k: nat, prefix: nat, a: Point, b: Point)
    ensures Continued(base, k, a.row, a.column, prefix) == Continued(base, k, b.row, b.column, prefix) <==> a == b
  {
  }

  lemma ChainedAt(parent: Origin, parsed: Text, k: nat, cut: Text, prefix: nat)
    requires k <= |parsed| && cut == parsed[..k]
    ensures Chained(parent, parsed, parent.start + k, prefix) == Continued(parent, k, Rows(cut), Column(cut), prefix)
  {
  }

  lemma DirectAt(document: Text, outer: Slice, k: nat, cut: Text)
    requires outer.start <= outer.end <= |document| && k <= outer.end - outer.start
    requires cut == document[outer.start..outer.end][..k]
    ensures OriginIn(document, outer.start + k)
         == Continued(OriginIn(document, outer.start), k, Rows(cut), Column(cut), 0)
  {
    PositionInSlice(document, outer, k);
  }

  lemma {:induction false} ShiftedLookup(base: Origin, behind: Text, text: Text, parsed: Text, k: nat, own: Text, direct: Origin, prefix: nat)
    requires Rows(behind) == 0 && k <= |text| && parsed == behind + text && own == text[..k]
    requires direct == Continued(base, k, Rows(own), Column(own), prefix)
    ensures Chained(base, parsed, base.start + k, prefix) == direct <==> behind == [] || Rows(own) == 0
  {
    var cut := parsed[..k];
    ChainedAt(base, parsed, k, cut, prefix);
    CutAgrees(behind, text, k, cut);
    ContinuedAgree(base, k, prefix, Point(Rows(cut), Column(cut)), Point(Rows(own), Column(own)));
  }

  /**
    The renderer looks up nested offsets in the text the parent was parsed from, synthetic prefix
    included, without shifting them. However deep the parent lies, the chained origin is the
    document's own exactly when the parent has no prefix or no newline lies between its start and the
    nested slice.
  */
  lemma {:induction false} PrefixedParentOrigin(document: Text, chain: Chain, k: nat, behind: Text, prefix: nat)
    requires Nested(document, chain) && k <= chain.slice.end - chain.slice.start && Rows(behind) == 0
    ensures var text := document[chain.slice.start..chain.slice.end];
            Chained(InnerOrigin(document, chain, |behind|), behind + text, chain.slice.start + k, prefix)
            == OriginIn(document, chain.slice.start + k).(prefix := prefix)
            <==> behind == [] || Rows(text[..k]) == 0
  {
    var slice := chain.slice;
    var text := document[slice.start..slice.end];
    var direct := OriginIn(document, slice.start + k).(prefix := prefix);
    ChainedOriginIsDirect(document, chain, |behind|);
    DirectAt(document, slice, k, text[..k]);
    ShiftedLookup(InnerOrigin(document, chain, |behind|), behind, text, behind + text, k, text[..k], direct, prefix);
  }

  /** One newline before a slice nested behind a prefix of one character puts it a row too high. */
  lemma {:induction false} PrefixHidesNewline(document: Text, behind: Text)
    requires document == [NEWLINE, 65] && behind == [32]
    ensures Chained(OriginIn(document, 0).(prefix := 1), behind + document, 1, 0) == Origin(1, 0, 1, 0)
    ensures OriginIn(document, 1) == Origin(1, 1, 0, 0)
  {
    var cut := (behind + document)[..1];
    assert cut == [32] && cut[..0] == [] && document[..1] == [NEWLINE] && document[..1][..0] == [];
    assert document[..0] == [];
    assert Rows(cut) == 0 && Column(cut) == 1;
    assert Rows(document[..1]) == 1 && Column(document[..1]) == 0;
  }
}
