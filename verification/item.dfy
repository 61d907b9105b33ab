/**
 * An item's cross-reference: which enemies drop it and which it can be
 * stolen from, sorted into seven buckets, and the wiki text listing them.
 *
 * `Item` keeps the seven buckets as fields that its constructor fills by
 * walking the bestiary once; the routing of one enemy is specified by
 * `Routed`, whose meaning in terms of slots alone is `SlotRule`.
 */
module Items {
  import opened Text
  import opened Wiki
  import opened Natures
  import opened Enemies
  import opened Bestiaries

  /** The seven buckets, in the order the wiki text lists them. */
  datatype Bucket =
    | AlwaysDropped | CommonlyDropped | RarelyDropped
    | AlwaysStolen | CommonlyStolen | RarelyStolen | UniqueRarelyStolen
  {
    /** The bold label that opens the bucket's line. */
    function Prefix(): (r: string)
      ensures |r| > 0
    {
      match this
      case AlwaysDropped => "'''Guaranteed drop:''' "
      case CommonlyDropped => "'''Common drop:''' "
      case RarelyDropped => "'''Rare drop:''' "
      case AlwaysStolen => "'''Guaranteed common steal:''' "
      case CommonlyStolen => "'''Common steal:''' "
      case RarelyStolen => "'''Rare steal:''' "
      case UniqueRarelyStolen => "'''Unique rare steal:''' "
    }

    predicate IsSteal() {
      AlwaysStolen? || CommonlyStolen? || RarelyStolen? || UniqueRarelyStolen?
    }
  }

  /** The line separator of the wiki text. */
  const Newline: string := "<br/>\n"

  /**
   * Whether handling `e` appends it to bucket `b` for `item`: the enemy's
   * nature picks the candidate buckets and the slot must name the item.
   */
  predicate Routed(b: Bucket, item: string, e: Enemy) {
    match b
    case AlwaysStolen => e.stealNature == UniqueGuaranteed && e.commonSteal == item
    case CommonlyStolen =>
      (e.stealNature == CommonAndRare || e.stealNature == CommonOnly) && e.commonSteal == item
    case RarelyStolen => e.stealNature == CommonAndRare && e.rareSteal == item
    case UniqueRarelyStolen => e.stealNature == RareOnly && e.rareSteal == item
    case AlwaysDropped => e.dropNature == UniqueGuaranteed && e.commonDrop == item
    case CommonlyDropped =>
      (e.dropNature == CommonAndRare || e.dropNature == CommonOnly) && e.commonDrop == item
    case RarelyDropped =>
      (e.dropNature == CommonAndRare || e.dropNature == RareOnly) && e.rareDrop == item
  }

  /** Which bucket an enemy belongs to, read off its four slots alone. */
  predicate SlotRule(b: Bucket, item: string, e: Enemy) {
    item != "" &&
    match b
    case AlwaysStolen => e.commonSteal == item && e.rareSteal == item
    case CommonlyStolen => e.commonSteal == item && e.rareSteal != item
    case RarelyStolen => e.rareSteal == item && e.commonSteal != item && e.commonSteal != ""
    case UniqueRarelyStolen => e.rareSteal == item && e.commonSteal == ""
    case AlwaysDropped => e.commonDrop == item && e.rareDrop == item
    case CommonlyDropped => e.commonDrop == item && e.rareDrop != item
    case RarelyDropped => e.rareDrop == item && e.commonDrop != item
  }

  /** The enemies of `es` that go into bucket `b`, in their order in `es`. */
  function Select(b: Bucket, item: string, es: seq<Enemy>): (r: seq<Enemy>)
    ensures |r| <= |es|
    decreases |es|
  {
    if es == [] then []
    else
      var last := es[|es| - 1];
      Select(b, item, es[..|es| - 1]) + (if Routed(b, item, last) then [last] else [])
  }

  // ---------------------------------------------------------------------
  // Rendering

  /** One bucket and its enemies. */
  datatype Section = Section(bucket: Bucket, enemies: seq<Enemy>)

  /** The enemies' links with their full names as text. */
  function CustomLinks(es: seq<Enemy>): (r: seq<string>)
    ensures |r| == |es|
    ensures forall k | 0 <= k < |es| :: r[k] == es[k].wikiLinkWithCustomText
  {
    seq(|es|, k requires 0 <= k < |es| => es[k].wikiLinkWithCustomText)
  }

  /** A bucket's line: its label, then its enemies' links separated by commas. */
  function RenderSection(s: Section): (r: string)
    ensures s.bucket.Prefix() <= r
  {
    s.bucket.Prefix() + Join(", ", CustomLinks(s.enemies))
  }

  /** The lines of the non-empty sections, in section order. */
  function RenderedSections(sections: seq<Section>): (r: seq<string>)
    ensures forall k | 0 <= k < |r| :: r[k] != ""
    decreases |sections|
  {
    if sections == [] then []
    else
      var last := sections[|sections| - 1];
      RenderedSections(sections[..|sections| - 1]) + (if last.enemies != [] then [RenderSection(last)] else [])
  }

  /** The wiki text: the non-empty sections' lines joined by line breaks. */
  function Render(sections: seq<Section>): string {
    Join(Newline, RenderedSections(sections))
  }

  /** The seven sections for an item, in the fixed order. */
  function SectionsFor(item: string, es: seq<Enemy>): (r: seq<Section>)
    ensures |r| == 7
  {
    [ Section(AlwaysDropped, Select(AlwaysDropped, item, es)),
      Section(CommonlyDropped, Select(CommonlyDropped, item, es)),
      Section(RarelyDropped, Select(RarelyDropped, item, es)),
      Section(AlwaysStolen, Select(AlwaysStolen, item, es)),
      Section(CommonlyStolen, Select(CommonlyStolen, item, es)),
      Section(RarelyStolen, Select(RarelyStolen, item, es)),
      Section(UniqueRarelyStolen, Select(UniqueRarelyStolen, item, es)) ]
  }

  /** The wiki text for an item over a list of enemies. */
  function ReferencesFor(item: string, es: seq<Enemy>): string {
    Render(SectionsFor(item, es))
  }

  // ---------------------------------------------------------------------
  // The item

  class Item {
    const name: string
    const bestiary: Bestiary
    var alwaysDroppedBy: seq<Enemy>
    var commonlyDroppedBy: seq<Enemy>
    var rarelyDroppedBy: seq<Enemy>
    var alwaysStolenFrom: seq<Enemy>
    var commonlyStolenFrom: seq<Enemy>
    var rarelyStolenFrom: seq<Enemy>
    var uniqueRarelyStolenFrom: seq<Enemy>

    /** The list field behind bucket `b`. */
    function Contents(b: Bucket): seq<Enemy>
      reads this
    {
      match b
      case AlwaysDropped => alwaysDroppedBy
      case CommonlyDropped => commonlyDroppedBy
      case RarelyDropped => rarelyDroppedBy
      case AlwaysStolen => alwaysStolenFrom
      case CommonlyStolen => commonlyStolenFrom
      case RarelyStolen => rarelyStolenFrom
      case UniqueRarelyStolen => uniqueRarelyStolenFrom
    }

    /** The item's sections, in the fixed order. */
    function Sections(): (r: seq<Section>)
      reads this
      ensures |r| == 7
      ensures forall b :: r[BucketIndex(b)] == Section(b, Contents(b))
    {
      [ Section(AlwaysDropped, alwaysDroppedBy),
        Section(CommonlyDropped, commonlyDroppedBy),
        Section(RarelyDropped, rarelyDroppedBy),
        Section(AlwaysStolen, alwaysStolenFrom),
        Section(CommonlyStolen, commonlyStolenFrom),
        Section(RarelyStolen, rarelyStolenFrom),
        Section(UniqueRarelyStolen, uniqueRarelyStolenFrom) ]
    }

    /** Start with seven empty buckets, then sort the whole bestiary into them. */
    constructor (name: string, bestiary: Bestiary)
      ensures this.name == name && this.bestiary == bestiary
      ensures forall b :: Contents(b) == Select(b, name, bestiary.AllEnemies())
      ensures Sections() == SectionsFor(name, bestiary.AllEnemies())
    {
      this.name := name;
      this.bestiary := bestiary;
      alwaysDroppedBy := [];
      commonlyDroppedBy := [];
      rarelyDroppedBy := [];
      alwaysStolenFrom := [];
      commonlyStolenFrom := [];
      rarelyStolenFrom := [];
      uniqueRarelyStolenFrom := [];
      new;
      assert forall b :: Contents(b) == [];
      PopulateEnemyLists();
      forall b ensures Contents(b) == Select(b, name, bestiary.AllEnemies()) {
        assert [] + Select(b, name, bestiary.AllEnemies()) == Select(b, name, bestiary.AllEnemies());
      }
      SectionsOfContents(this, bestiary.AllEnemies());
    }

    /** Visit the regular enemies, then the bosses, and file each one. */
    method PopulateEnemyLists()
      modifies this
      ensures forall b :: Contents(b) == old(Contents(b)) + Select(b, name, bestiary.AllEnemies())
    {
      var all := bestiary.enemies + bestiary.bosses;
      var i := 0;
      while i < |all|
        invariant 0 <= i <= |all|
        invariant forall b :: Contents(b) == old(Contents(b)) + Select(b, name, all[..i])
      {
        var e := all[i];
        label Before:
        CheckStealableItems(e);
        label Stolen:
        CheckDroppableItems(e);
        assert all[..i + 1] == all[..i] + [e];
        forall b ensures Contents(b) == old(Contents(b)) + Select(b, name, all[..i + 1]) {
          FileStep(old(Contents(b)), old@Before(Contents(b)), old@Stolen(Contents(b)), Contents(b),
                   b, name, all[..i], e);
        }
        i := i + 1;
      }
      assert all[..i] == all;
    }

    /** Append `e` to the steal bucket its steal nature and slots select, if any. */
    method CheckStealableItems(e: Enemy)
      modifies this
      ensures forall b :: Contents(b) == old(Contents(b)) + (if b.IsSteal() && Routed(b, name, e) then [e] else [])
    {
      match e.stealNature
      case CommonAndRare =>
        if e.commonSteal == name {
          commonlyStolenFrom := commonlyStolenFrom + [e];
        }
        if e.rareSteal == name {
          rarelyStolenFrom := rarelyStolenFrom + [e];
        }
      case UniqueGuaranteed =>
        if e.commonSteal == name {
          alwaysStolenFrom := alwaysStolenFrom + [e];
        }
      case CommonOnly =>
        if e.commonSteal == name {
          commonlyStolenFrom := commonlyStolenFrom + [e];
        }
      case RareOnly =>
        if e.rareSteal == name {
          uniqueRarelyStolenFrom := uniqueRarelyStolenFrom + [e];
        }
      case NoItems =>
        return;
    }

    /** Append `e` to the drop bucket its drop nature and slots select, if any. */
    method CheckDroppableItems(e: Enemy)
      modifies this
      ensures forall b :: Contents(b) == old(Contents(b)) + (if !b.IsSteal() && Routed(b, name, e) then [e] else [])
    {
      match e.dropNature
      case CommonAndRare =>
        if e.commonDrop == name {
          commonlyDroppedBy := commonlyDroppedBy + [e];
        }
        if e.rareDrop == name {
          rarelyDroppedBy := rarelyDroppedBy + [e];
        }
      case UniqueGuaranteed =>
        if e.commonDrop == name {
          alwaysDroppedBy := alwaysDroppedBy + [e];
        }
      case CommonOnly =>
        if e.commonDrop == name {
          commonlyDroppedBy := commonlyDroppedBy + [e];
        }
      case RareOnly =>
        if e.rareDrop == name {
          rarelyDroppedBy := rarelyDroppedBy + [e];
        }
      case NoItems =>
        return;
    }

    /** The wiki text: empty exactly when no bucket holds an enemy. */
    function GetWikiReadyReferences(): (r: string)
      reads this
      ensures r == "" <==> forall b :: Contents(b) == []
    {
      SectionsEmpty(Sections(), this);
      Render(Sections())
    }
  }

  /** An item whose buckets are the selections from `es` has the sections for `es`. */
  lemma SectionsOfContents(item: Item, es: seq<Enemy>)
    requires forall b :: item.Contents(b) == Select(b, item.name, es)
    ensures item.Sections() == SectionsFor(item.name, es)
  {
    var r := item.Sections();
    var t := SectionsFor(item.name, es);
    forall k | 0 <= k < 7 ensures r[k] == t[k] {
      var b := BucketAt(k);
      assert r[BucketIndex(b)] == Section(b, item.Contents(b));
    }
  }

  /** The position of each bucket among the sections. */
  function BucketIndex(b: Bucket): (k: nat)
    ensures k < 7
  {
    match b
    case AlwaysDropped => 0
    case CommonlyDropped => 1
    case RarelyDropped => 2
    case AlwaysStolen => 3
    case CommonlyStolen => 4
    case RarelyStolen => 5
    case UniqueRarelyStolen => 6
  }

  // ---------------------------------------------------------------------
  // Routing

  /**
   * For an enemy whose natures classify its slots, the nature-driven
   * routing and the slot-only rule pick the same buckets.
   */
  lemma RoutedBySlots(b: Bucket, item: string, e: Enemy)
    requires e.Valid()
    ensures Routed(b, item, e) <==> SlotRule(b, item, e)
  {
  }

  /** A valid enemy goes into at most one steal bucket and at most one drop bucket. */
  lemma AtMostOneBucketPerMechanic(item: string, e: Enemy, b1: Bucket, b2: Bucket)
    requires e.Valid()
    requires Routed(b1, item, e) && Routed(b2, item, e)
    requires b1.IsSteal() == b2.IsSteal()
    ensures b1 == b2
  {
  }

  /**
   * A valid enemy that has the item in a steal slot is in a steal bucket, and
   * one that has it in a drop slot is in a drop bucket.
   */
  lemma EveryMentionRouted(item: string, e: Enemy)
    requires e.Valid() && item != ""
    ensures (e.commonSteal == item || e.rareSteal == item) ==>
              exists b: Bucket :: b.IsSteal() && Routed(b, item, e)
    ensures (e.commonDrop == item || e.rareDrop == item) ==>
              exists b: Bucket :: !b.IsSteal() && Routed(b, item, e)
  {
    if e.commonSteal == item || e.rareSteal == item {
      if e.commonSteal == item && e.rareSteal == item {
        assert Routed(AlwaysStolen, item, e);
      } else if e.commonSteal == item {
        assert Routed(CommonlyStolen, item, e);
      } else if e.commonSteal != "" {
        assert Routed(RarelyStolen, item, e);
      } else {
        assert Routed(UniqueRarelyStolen, item, e);
      }
    }
    if e.commonDrop == item || e.rareDrop == item {
      if e.commonDrop == item && e.rareDrop == item {
        assert Routed(AlwaysDropped, item, e);
      } else if e.commonDrop == item {
        assert Routed(CommonlyDropped, item, e);
      } else {
        assert Routed(RarelyDropped, item, e);
      }
    }
  }

  /**
   * One enemy filed under its steal bucket, then under its drop bucket,
   * extends bucket `b` as one more enemy extends the selection.
   */
  lemma FileStep(start: seq<Enemy>, before: seq<Enemy>, stolen: seq<Enemy>, after: seq<Enemy>,
                 b: Bucket, item: string, es: seq<Enemy>, e: Enemy)
    requires before == start + Select(b, item, es)
    requires stolen == before + (if b.IsSteal() && Routed(b, item, e) then [e] else [])
    requires after == stolen + (if !b.IsSteal() && Routed(b, item, e) then [e] else [])
    ensures after == start + Select(b, item, es + [e])
  {
    var stealPart := if b.IsSteal() && Routed(b, item, e) then [e] else [];
    var dropPart := if !b.IsSteal() && Routed(b, item, e) then [e] else [];
    var part := if Routed(b, item, e) then [e] else [];
    calc {
      after;
      (before + stealPart) + dropPart;
      { AppendAssoc(before, stealPart, dropPart); }
      before + (stealPart + dropPart);
      { EitherMechanic(b.IsSteal(), Routed(b, item, e), e); }
      before + part;
      (start + Select(b, item, es)) + part;
      { AppendAssoc(start, Select(b, item, es), part); }
      start + (Select(b, item, es) + part);
      { SelectSnoc(b, item, es, e); }
      start + Select(b, item, es + [e]);
    }
  }

  lemma AppendAssoc(x: seq<Enemy>, y: seq<Enemy>, z: seq<Enemy>)
    ensures (x + y) + z == x + (y + z)
  {
  }

  /** Filing under the steal bucket, then the drop bucket, files at most once. */
  lemma EitherMechanic(steal: bool, routed: bool, e: Enemy)
    ensures (if steal && routed then [e] else []) + (if !steal && routed then [e] else [])
            == (if routed then [e] else [])
  {
  }

  /** One more enemy is appended to bucket `b` when it is routed there. */
  lemma SelectSnoc(b: Bucket, item: string, es: seq<Enemy>, e: Enemy)
    ensures Select(b, item, es + [e]) == Select(b, item, es) + (if Routed(b, item, e) then [e] else [])
  {
    assert (es + [e])[..|es|] == es;
  }

  /** Bucket `b` holds exactly the enemies of `es` routed to it. */
  lemma {:induction false} SelectMembership(b: Bucket, item: string, es: seq<Enemy>, e: Enemy)
    ensures e in Select(b, item, es) <==> e in es && Routed(b, item, e)
    decreases |es|
  {
    if es != [] {
      var front := es[..|es| - 1];
      SelectMembership(b, item, front, e);
      assert es == front + [es[|es| - 1]];
    }
  }

  /** Filing keeps the visiting order: the regular enemies' entries come before the bosses'. */
  lemma {:induction false} SelectConcat(b: Bucket, item: string, xs: seq<Enemy>, ys: seq<Enemy>)
    ensures Select(b, item, xs + ys) == Select(b, item, xs) + Select(b, item, ys)
    decreases |ys|
  {
    if ys == [] {
      assert xs + ys == xs;
    } else {
      var front := ys[..|ys| - 1];
      assert (xs + ys)[..|xs + ys| - 1] == xs + front;
      SelectConcat(b, item, xs, front);
    }
  }

  /**
   * Every enemy in a steal bucket has the item as a steal slot, and every
   * enemy in a drop bucket has it as a drop slot.
   */
  lemma BucketSlotsMatch(b: Bucket, item: string, es: seq<Enemy>, e: Enemy)
    requires e in Select(b, item, es)
    ensures e in es
    ensures b.IsSteal() ==> e.commonSteal == item || e.rareSteal == item
    ensures !b.IsSteal() ==> e.commonDrop == item || e.rareDrop == item
  {
    SelectMembership(b, item, es, e);
  }

  /** The item's buckets over a bestiary: regular enemies first, then bosses. */
  lemma ItemBucketsOrder(item: string, bestiary: Bestiary, b: Bucket)
    ensures Select(b, item, bestiary.AllEnemies())
            == Select(b, item, bestiary.enemies) + Select(b, item, bestiary.bosses)
  {
    SelectConcat(b, item, bestiary.enemies, bestiary.bosses);
  }

  // ---------------------------------------------------------------------
  // Rendering

  /** Rendering a list of sections renders each part in turn. */
  lemma {:induction false} RenderedConcat(a: seq<Section>, c: seq<Section>)
    ensures RenderedSections(a + c) == RenderedSections(a) + RenderedSections(c)
    decreases |c|
  {
    if c == [] {
      assert a + c == a;
    } else {
      var front := c[..|c| - 1];
      assert (a + c)[..|a + c| - 1] == a + front;
      RenderedConcat(a, front);
    }
  }

  /** No line is rendered exactly when every section is empty. */
  lemma {:induction false} RenderedNone(sections: seq<Section>)
    ensures RenderedSections(sections) == [] <==> forall k | 0 <= k < |sections| :: sections[k].enemies == []
    decreases |sections|
  {
    if sections != [] {
      var front := sections[..|sections| - 1];
      RenderedNone(front);
      if forall k | 0 <= k < |sections| :: sections[k].enemies == [] {
        assert forall k | 0 <= k < |front| :: front[k].enemies == [] by {
          forall k | 0 <= k < |front| ensures front[k].enemies == [] {
            assert front[k] == sections[k];
          }
        }
      }
      if RenderedSections(sections) == [] {
        assert RenderedSections(front) == [];
        forall k | 0 <= k < |sections| ensures sections[k].enemies == [] {
          if k < |front| {
            assert front[k] == sections[k];
          }
        }
      }
    }
  }

  /** The text is empty exactly when every section is empty. */
  lemma RenderEmpty(sections: seq<Section>)
    ensures Render(sections) == "" <==> forall k | 0 <= k < |sections| :: sections[k].enemies == []
  {
    var parts := RenderedSections(sections);
    RenderedNone(sections);
    JoinEmpty(Newline, parts);
    if |parts| == 1 {
      assert parts[0] != "";
    }
  }

  /** With a single non-empty section, the text is that section's line and nothing else. */
  lemma RenderSingle(pre: seq<Section>, s: Section, post: seq<Section>)
    requires s.enemies != []
    requires forall k | 0 <= k < |pre| :: pre[k].enemies == []
    requires forall k | 0 <= k < |post| :: post[k].enemies == []
    ensures Render(pre + [s] + post) == s.bucket.Prefix() + Join(", ", CustomLinks(s.enemies))
  {
    RenderedNone(pre);
    RenderedNone(post);
    RenderedConcat(pre + [s], post);
    RenderedConcat(pre, [s]);
    assert [s][..0] == [];
    assert RenderedSections([s]) == [RenderSection(s)];
  }

  /** The text begins with the line of the first non-empty section. */
  lemma RenderStartsWithFirst(pre: seq<Section>, s: Section, post: seq<Section>)
    requires s.enemies != []
    requires forall k | 0 <= k < |pre| :: pre[k].enemies == []
    ensures s.bucket.Prefix() <= Render(pre + [s] + post)
  {
    RenderedNone(pre);
    RenderedConcat(pre + [s], post);
    RenderedConcat(pre, [s]);
    assert [s][..0] == [];
    var parts := RenderedSections(pre + [s] + post);
    assert parts[0] == RenderSection(s);
    JoinStartsWithFirst(Newline, parts);
  }

  /**
   * The text read from the front: a non-empty first section gives its line,
   * followed by a line break and the rest's text when that is non-empty; an
   * empty first section adds nothing.
   */
  lemma RenderCons(s: Section, rest: seq<Section>)
    ensures s.enemies != [] ==>
              Render([s] + rest) == RenderSection(s) + (if Render(rest) == "" then "" else Newline + Render(rest))
    ensures s.enemies == [] ==> Render([s] + rest) == Render(rest)
  {
    var tail := RenderedSections(rest);
    RenderedConcat([s], rest);
    assert [s][..0] == [];
    assert RenderedSections([s]) == if s.enemies != [] then [RenderSection(s)] else [];
    if s.enemies == [] {
      assert [] + tail == tail;
    }
    JoinEmpty(Newline, tail);
    if |tail| == 1 {
      assert tail[0] != "";
    }
    if s.enemies != [] && tail != [] {
      JoinCons(Newline, RenderSection(s), tail);
    }
  }

  /** Two non-empty sections: the first line, a line break, then the second line. */
  lemma RenderTwo(s: Section, t: Section)
    requires s.enemies != [] && t.enemies != []
    ensures Render([s, t]) == RenderSection(s) + Newline + RenderSection(t)
  {
    RenderCons(s, [t]);
    RenderCons(t, []);
    assert [t] + [] == [t];
    assert [s] + [t] == [s, t];
    RenderEmpty([]);
  }

  /** The item's text is empty exactly when all of its buckets are. */
  lemma SectionsEmpty(sections: seq<Section>, item: Item)
    requires |sections| == 7
    requires forall b :: sections[BucketIndex(b)] == Section(b, item.Contents(b))
    ensures Render(sections) == "" <==> forall b :: item.Contents(b) == []
  {
    RenderEmpty(sections);
    if forall b :: item.Contents(b) == [] {
      forall k | 0 <= k < 7 ensures sections[k].enemies == [] {
        var b := BucketAt(k);
        assert sections[BucketIndex(b)].enemies == [];
      }
    }
  }

  /** The bucket at each position among the sections. */
  function BucketAt(k: nat): (b: Bucket)
    requires k < 7
    ensures BucketIndex(b) == k
  {
    [AlwaysDropped, CommonlyDropped, RarelyDropped,
     AlwaysStolen, CommonlyStolen, RarelyStolen, UniqueRarelyStolen][k]
  }

  /** An item that no enemy names in any slot gets empty wiki text. */
  lemma NoMentionNoReferences(item: string, es: seq<Enemy>)
    requires forall e | e in es ::
               e.commonSteal != item && e.rareSteal != item && e.commonDrop != item && e.rareDrop != item
    ensures ReferencesFor(item, es) == ""
  {
    var sections := SectionsFor(item, es);
    forall k | 0 <= k < |sections| ensures sections[k].enemies == [] {
      var b := sections[k].bucket;
      if sections[k].enemies != [] {
        var e := sections[k].enemies[0];
        BucketSlotsMatch(b, item, es, e);
      }
    }
    RenderEmpty(sections);
  }

  /**
   * An enemy that always drops the item and names it in no steal slot is
   * routed to the guaranteed-drop bucket alone, whatever else it steals.
   */
  lemma GuaranteedDropRouting(b: Bucket, item: string, e: Enemy)
    requires e.dropNature == UniqueGuaranteed && e.commonDrop == item
    requires e.commonSteal != item && e.rareSteal != item
    ensures Select(b, item, [e]) == if b == AlwaysDropped then [e] else []
  {
    SelectSnoc(b, item, [], e);
    assert [] + [e] == [e];
  }

  /** The six sections after the first, all empty. */
  function EmptyTail(): (r: seq<Section>)
    ensures forall k | 0 <= k < |r| :: r[k].enemies == []
  {
    [ Section(CommonlyDropped, []), Section(RarelyDropped, []),
      Section(AlwaysStolen, []), Section(CommonlyStolen, []),
      Section(RarelyStolen, []), Section(UniqueRarelyStolen, []) ]
  }

  /** The sections for one enemy that always drops the item and does not steal it. */
  lemma SingleGuaranteedDropSections(item: string, e: Enemy)
    requires e.dropNature == UniqueGuaranteed && e.commonDrop == item
    requires e.commonSteal != item && e.rareSteal != item
    ensures SectionsFor(item, [e]) == [Section(AlwaysDropped, [e])] + EmptyTail()
  {
    GuaranteedDropRouting(AlwaysDropped, item, e);
    GuaranteedDropRouting(CommonlyDropped, item, e);
    GuaranteedDropRouting(RarelyDropped, item, e);
    GuaranteedDropRouting(AlwaysStolen, item, e);
    GuaranteedDropRouting(CommonlyStolen, item, e);
    GuaranteedDropRouting(RarelyStolen, item, e);
    GuaranteedDropRouting(UniqueRarelyStolen, item, e);
  }

  /**
   * An item found on one enemy only, as its guaranteed drop, gets the
   * guaranteed-drop line with that enemy's custom link and nothing else,
   * whatever other items the enemy can be stolen from.
   */
  lemma SingleGuaranteedDrop(item: string, e: Enemy)
    requires e.dropNature == UniqueGuaranteed && e.commonDrop == item
    requires e.commonSteal != item && e.rareSteal != item
    ensures ReferencesFor(item, [e]) == AlwaysDropped.Prefix() + e.wikiLinkWithCustomText
  {
    SingleGuaranteedDropSections(item, e);
    assert [] + [Section(AlwaysDropped, [e])] + EmptyTail() == [Section(AlwaysDropped, [e])] + EmptyTail();
    RenderSingle([], Section(AlwaysDropped, [e]), EmptyTail());
    assert CustomLinks([e]) == [e.wikiLinkWithCustomText];
  }

  /**
   * A single goblin that always drops a dagger: the dagger's text is the
   * guaranteed-drop line with the goblin's custom link, and nothing else.
   */
  lemma GoblinDaggerReferences()
    ensures var r := NewEnemy("Goblin", false, "0", "", "", "Dagger", "Dagger");
      && r.Ok?
      && ReferencesFor("Dagger", [r.value])
         == "'''Guaranteed drop:''' " + PipedLink("Goblin" + " (Final Fantasy V enemy)", "Goblin")
  {
    GoblinCustomLink("", "", "Dagger", "Dagger");
    var goblin := NewEnemy("Goblin", false, "0", "", "", "Dagger", "Dagger").value;
    SingleGuaranteedDrop("Dagger", goblin);
  }
}
