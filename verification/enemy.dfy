/**
 * One enemy of the bestiary: its validated name, its wiki page and the two
 * link forms derived from it, its four item slots and the nature of each
 * slot pair. An enemy is an immutable value, built once by `NewEnemy`; an
 * `Err` result stands for the exception the construction would raise.
 *
 * An item slot is a string and the empty string means "no item", as Python's
 * truthiness treats it.
 */
module Enemies {
  import opened Wrappers
  import opened Text
  import opened Wiki
  import opened PageTypes
  import opened Natures

  /** Why building an enemy fails. */
  datatype EnemyError =
    | EmptyName                          // the name is the empty string
    | InvalidName(name: string)          // the name breaks the format rule
    | InvalidPageType(field: string)     // the page-type field is not a member's value
    | SpecialCasePageType(name: string)  // an ordinary name is marked as a special case

  datatype Enemy = Enemy(
    name: string,
    isBoss: bool,
    pageType: PageType,
    wikiPage: string,
    wikiLink: string,
    wikiLinkWithCustomText: string,
    commonSteal: string,
    rareSteal: string,
    commonDrop: string,
    rareDrop: string,
    stealNature: Nature,
    dropNature: Nature)
  {
    /**
     * What every constructed enemy satisfies: each nature classifies its slot
     * pair, and the custom link closes with the enemy's own name.
     */
    predicate Valid() {
      && name != ""
      && stealNature == Classify(commonSteal, rareSteal)
      && dropNature == Classify(commonDrop, rareDrop)
      && EndsWith(wikiLinkWithCustomText, "|" + name + "]]")
    }
  }

  predicate IsAsciiUpper(c: char) {
    'A' <= c <= 'Z'
  }

  /** ASCII letters, digits and the seven characters ` '.()-#`. */
  predicate IsNameChar(c: char) {
    'a' <= c <= 'z' || 'A' <= c <= 'Z' || '0' <= c <= '9' || c in " '.()-#"
  }

  /** The format rule for names outside the special-case table. */
  predicate WellFormedName(name: string) {
    name != "" && IsAsciiUpper(name[0]) && forall c | c in name :: IsNameChar(c)
  }

  /**
   * The name check of the constructor. A special-case name is accepted as it
   * is; any other non-empty name must follow the format rule.
   */
  function ValidateEnemyName(name: string): (r: Result<string, EnemyError>)
    ensures r.Ok? ==> r.value == name
    ensures name == "" ==> r == Err(EmptyName)
    ensures name in SpecialEnemies ==> r.Ok?
    ensures name !in SpecialEnemies ==> (r.Ok? <==> WellFormedName(name))
    ensures name != "" && r.Err? ==> r == Err(InvalidName(name))
  {
    if name == "" then Err(EmptyName)
    else if name in SpecialEnemies then Ok(name)
    else if !IsAsciiUpper(name[0]) then Err(InvalidName(name))
    else if !(forall c | c in name :: IsNameChar(c)) then Err(InvalidName(name))
    else Ok(name)
  }

  /** `FF5EnemyPageType(int(field))`, with the failure as an error. */
  function ParsePageType(field: string): (r: Result<PageType, EnemyError>)
    ensures r.Ok? <==>
              field != [] && (forall c | c in field :: IsDigit(c)) && DecimalValue(field) <= 4
    ensures r.Ok? ==> r.value.Code() == DecimalValue(field)
    ensures r.Err? ==> r.error == InvalidPageType(field)
  {
    match PageTypeOfField(field)
    case Some(t) => Ok(t)
    case None => Err(InvalidPageType(field))
  }

  /** The suffix that the page type appends to an ordinary enemy's page name. */
  function PageSuffix(name: string, pageType: PageType): (r: Result<string, EnemyError>)
    ensures r.Err? <==> pageType == SpecialCase
    ensures r.Err? ==> r.error == SpecialCasePageType(name)
    ensures r.Ok? ==> r.value in WikiEnemySuffixes
  {
    match pageType
    case PageWithFF5EnemyMarker => Ok("_(Final_Fantasy_V_enemy)")
    case PageWithFF5BossMarker => Ok("_(Final_Fantasy_V_boss)")
    case PageWithFF5Marker => Ok("_(Final_Fantasy_V)")
    case PageWithNoMarker => Ok("")
    case SpecialCase => Err(SpecialCasePageType(name))
  }

  /**
   * Each ordinary page type selects the suffix table key at its own position:
   * the enum values 0..3 follow the table's key order.
   */
  lemma PageSuffixByCode(name: string, pageType: PageType)
    requires pageType != SpecialCase
    ensures pageType.Code() < |SuffixKeys|
    ensures PageSuffix(name, pageType) == Ok(SuffixKeys[pageType.Code()])
  {
  }

  /** The part of the name before its first `" ("`: the name the wiki page is about. */
  function BaseName(name: string): string {
    BeforeFirst(name, " (")
  }

  /**
   * The full URL of the enemy's wiki page. The page-existence check is
   * switched off, so every candidate URL is accepted.
   */
  function WikiPage(name: string, pageType: PageType): (r: Result<string, EnemyError>)
    ensures name in SpecialEnemies ==> r == Ok(WikiMainUrl + SpecialEnemies[name].pageName)
    ensures name !in SpecialEnemies ==> (r.Err? <==> pageType == SpecialCase)
    ensures r.Err? ==> r.error == SpecialCasePageType(name)
  {
    if name in SpecialEnemies then
      Ok(WikiMainUrl + SpecialEnemies[name].pageName)
    else
      var suffix :- PageSuffix(name, pageType);
      Ok(WikiMainUrl + Replace(BaseName(name), " ", "_") + suffix)
  }

  /** The plain link: the table's markup, or one built from the page's last path segment. */
  function WikiLink(name: string, wikiPage: string): string {
    if name in SpecialEnemies then SpecialEnemies[name].wikiLink
    else "[[" + Replace(Replace(LastSegment(wikiPage), "_", " "), "%3F", "?") + "]]"
  }

  /** The link with the enemy's full name as its display text. */
  function WikiLinkWithCustomText(name: string, wikiLink: string): string {
    Replace(wikiLink, "]]", "|" + name + "]]")
  }

  /** The nature of one mechanic's slot pair; exactly one of the five holds. */
  function Classify(common: string, rare: string): (r: Nature)
    ensures r == CommonAndRare <==> common != "" && rare != "" && common != rare
    ensures r == UniqueGuaranteed <==> common != "" && common == rare
    ensures r == CommonOnly <==> common != "" && rare == ""
    ensures r == RareOnly <==> common == "" && rare != ""
    ensures r == NoItems <==> common == "" && rare == ""
  {
    if common != "" && rare != "" then
      (if common != rare then CommonAndRare else UniqueGuaranteed)
    else if common != "" then CommonOnly
    else if rare != "" then RareOnly
    else NoItems
  }

  /**
   * The constructor: validate the name, convert the page type, resolve the
   * page, derive both links, store the slots and classify them. The first
   * step that fails decides the error.
   */
  function NewEnemy(name: string, isBoss: bool, pageTypeField: string,
                    commonSteal: string, rareSteal: string,
                    commonDrop: string, rareDrop: string): (r: Result<Enemy, EnemyError>)
    ensures ValidateEnemyName(name).Err? ==> r == Err(ValidateEnemyName(name).error)
    ensures ValidateEnemyName(name).Ok? && ParsePageType(pageTypeField).Err? ==>
              r == Err(InvalidPageType(pageTypeField))
    ensures r.Ok? <==>
              && ValidateEnemyName(name).Ok?
              && ParsePageType(pageTypeField).Ok?
              && (name in SpecialEnemies || ParsePageType(pageTypeField).value != SpecialCase)
    ensures && ValidateEnemyName(name).Ok? && ParsePageType(pageTypeField).Ok?
            && name !in SpecialEnemies && ParsePageType(pageTypeField).value == SpecialCase ==>
              r == Err(SpecialCasePageType(name))
    ensures r.Ok? ==>
              && r.value.Valid()
              && r.value.name == name
              && r.value.isBoss == isBoss
              && r.value.pageType == ParsePageType(pageTypeField).value
              && r.value.commonSteal == commonSteal && r.value.rareSteal == rareSteal
              && r.value.commonDrop == commonDrop && r.value.rareDrop == rareDrop
  {
    var validName :- ValidateEnemyName(name);
    var pageType :- ParsePageType(pageTypeField);
    var page :- WikiPage(validName, pageType);
    var link := WikiLink(validName, page);
    CustomLinkEndsWithName(validName, pageType);
    Ok(Enemy(validName, isBoss, pageType, page, link, WikiLinkWithCustomText(validName, link),
             commonSteal, rareSteal, commonDrop, rareDrop,
             Classify(commonSteal, rareSteal), Classify(commonDrop, rareDrop)))
  }

  // ---------------------------------------------------------------------
  // How the links come out

  /** No character allowed in a name is one the link derivation rewrites or splits on. */
  lemma NameCharFacts(s: string)
    requires forall c | c in s :: IsNameChar(c)
    ensures '_' !in s && '/' !in s && '%' !in s && ']' !in s
  {
  }

  /** The base name of a well-formed name has only name characters. */
  lemma BaseNameChars(name: string)
    requires WellFormedName(name)
    ensures '_' !in BaseName(name) && '/' !in BaseName(name)
    ensures '%' !in BaseName(name) && ']' !in BaseName(name)
  {
    var base := BaseName(name);
    forall c | c in base ensures IsNameChar(c) {
      assert c in name;
    }
    NameCharFacts(base);
  }

  // The three hard-coded suffixes each get their own small lemmas below, one
  // literal-string fact apiece: stated together, these facts cost the
  // verifier far more than the sum of the parts.

  lemma EnemySuffixReplace()
    ensures Replace("_(Final_Fantasy_V_enemy)", "_", " ") == " (Final Fantasy V enemy)"
  {
    EnemySuffixWords();
    ReplaceCharJoin(EnemyWords(), '_', ' ');
  }

  function EnemyWords(): seq<string> {
    ["", "(Final", "Fantasy", "V", "enemy)"]
  }

  lemma EnemySuffixWords()
    ensures Join("_", EnemyWords()) == "_(Final_Fantasy_V_enemy)"
    ensures Join(" ", EnemyWords()) == " (Final Fantasy V enemy)"
    ensures forall k | 0 <= k < |EnemyWords()| :: '_' !in EnemyWords()[k]
  {
    EnemyJoinUnderscore();
    EnemyJoinSpace();
    EnemyNoUnderscore();
  }

  lemma EnemyJoinUnderscore()
    ensures Join("_", ["", "(Final", "Fantasy", "V", "enemy)"]) == "_(Final_Fantasy_V_enemy)"
  {
    Join5("_", "", "(Final", "Fantasy", "V", "enemy)");
    assert "" + "_" + ("(Final" + "_" + ("Fantasy" + "_" + ("V" + "_" + "enemy)"))) == "_(Final_Fantasy_V_enemy)";
  }

  lemma EnemyJoinSpace()
    ensures Join(" ", ["", "(Final", "Fantasy", "V", "enemy)"]) == " (Final Fantasy V enemy)"
  {
    Join5(" ", "", "(Final", "Fantasy", "V", "enemy)");
    assert "" + " " + ("(Final" + " " + ("Fantasy" + " " + ("V" + " " + "enemy)"))) == " (Final Fantasy V enemy)";
  }

  lemma EnemyNoUnderscore()
    ensures forall k | 0 <= k < |EnemyWords()| :: '_' !in EnemyWords()[k]
  {
  }

  lemma EnemySuffixDisplay()
    ensures Replace("_(Final_Fantasy_V_enemy)", "_", " ") == WikiEnemySuffixes["_(Final_Fantasy_V_enemy)"]
    ensures '/' !in "_(Final_Fantasy_V_enemy)"
    ensures '%' !in WikiEnemySuffixes["_(Final_Fantasy_V_enemy)"] && ']' !in WikiEnemySuffixes["_(Final_Fantasy_V_enemy)"]
  {
    EnemySuffixReplace();
    EnemySuffixLookup();
    EnemySuffixChars();
  }

  lemma EnemySuffixLookup()
    ensures WikiEnemySuffixes["_(Final_Fantasy_V_enemy)"] == " (Final Fantasy V enemy)"
  {
  }

  lemma EnemySuffixChars()
    ensures '/' !in "_(Final_Fantasy_V_enemy)"
    ensures '%' !in " (Final Fantasy V enemy)" && ']' !in " (Final Fantasy V enemy)"
  {
  }

  lemma BossSuffixReplace()
    ensures Replace("_(Final_Fantasy_V_boss)", "_", " ") == " (Final Fantasy V boss)"
  {
    BossSuffixWords();
    ReplaceCharJoin(BossWords(), '_', ' ');
  }

  function BossWords(): seq<string> {
    ["", "(Final", "Fantasy", "V", "boss)"]
  }

  lemma BossSuffixWords()
    ensures Join("_", BossWords()) == "_(Final_Fantasy_V_boss)"
    ensures Join(" ", BossWords()) == " (Final Fantasy V boss)"
    ensures forall k | 0 <= k < |BossWords()| :: '_' !in BossWords()[k]
  {
    BossJoinUnderscore();
    BossJoinSpace();
    BossNoUnderscore();
  }

  lemma BossJoinUnderscore()
    ensures Join("_", ["", "(Final", "Fantasy", "V", "boss)"]) == "_(Final_Fantasy_V_boss)"
  {
    Join5("_", "", "(Final", "Fantasy", "V", "boss)");
    assert "" + "_" + ("(Final" + "_" + ("Fantasy" + "_" + ("V" + "_" + "boss)"))) == "_(Final_Fantasy_V_boss)";
  }

  lemma BossJoinSpace()
    ensures Join(" ", ["", "(Final", "Fantasy", "V", "boss)"]) == " (Final Fantasy V boss)"
  {
    Join5(" ", "", "(Final", "Fantasy", "V", "boss)");
    assert "" + " " + ("(Final" + " " + ("Fantasy" + " " + ("V" + " " + "boss)"))) == " (Final Fantasy V boss)";
  }

  lemma BossNoUnderscore()
    ensures forall k | 0 <= k < |BossWords()| :: '_' !in BossWords()[k]
  {
  }

  lemma BossSuffixDisplay()
    ensures Replace("_(Final_Fantasy_V_boss)", "_", " ") == WikiEnemySuffixes["_(Final_Fantasy_V_boss)"]
    ensures '/' !in "_(Final_Fantasy_V_boss)"
    ensures '%' !in WikiEnemySuffixes["_(Final_Fantasy_V_boss)"] && ']' !in WikiEnemySuffixes["_(Final_Fantasy_V_boss)"]
  {
    BossSuffixReplace();
    BossSuffixLookup();
    BossSuffixChars();
  }

  lemma BossSuffixLookup()
    ensures WikiEnemySuffixes["_(Final_Fantasy_V_boss)"] == " (Final Fantasy V boss)"
  {
  }

  lemma BossSuffixChars()
    ensures '/' !in "_(Final_Fantasy_V_boss)"
    ensures '%' !in " (Final Fantasy V boss)" && ']' !in " (Final Fantasy V boss)"
  {
  }

  lemma PlainSuffixReplace()
    ensures Replace("_(Final_Fantasy_V)", "_", " ") == " (Final Fantasy V)"
  {
    PlainSuffixWords();
    ReplaceCharJoin(PlainWords(), '_', ' ');
  }

  function PlainWords(): seq<string> {
    ["", "(Final", "Fantasy", "V)"]
  }

  lemma PlainSuffixWords()
    ensures Join("_", PlainWords()) == "_(Final_Fantasy_V)"
    ensures Join(" ", PlainWords()) == " (Final Fantasy V)"
    ensures forall k | 0 <= k < |PlainWords()| :: '_' !in PlainWords()[k]
  {
    PlainJoinUnderscore();
    PlainJoinSpace();
    PlainNoUnderscore();
  }

  lemma PlainJoinUnderscore()
    ensures Join("_", ["", "(Final", "Fantasy", "V)"]) == "_(Final_Fantasy_V)"
  {
    Join4("_", "", "(Final", "Fantasy", "V)");
    assert "" + "_" + ("(Final" + "_" + ("Fantasy" + "_" + "V)")) == "_(Final_Fantasy_V)";
  }

  lemma PlainJoinSpace()
    ensures Join(" ", ["", "(Final", "Fantasy", "V)"]) == " (Final Fantasy V)"
  {
    Join4(" ", "", "(Final", "Fantasy", "V)");
    assert "" + " " + ("(Final" + " " + ("Fantasy" + " " + "V)")) == " (Final Fantasy V)";
  }

  lemma PlainNoUnderscore()
    ensures forall k | 0 <= k < |PlainWords()| :: '_' !in PlainWords()[k]
  {
  }

  lemma PlainSuffixDisplay()
    ensures Replace("_(Final_Fantasy_V)", "_", " ") == WikiEnemySuffixes["_(Final_Fantasy_V)"]
    ensures '/' !in "_(Final_Fantasy_V)"
    ensures '%' !in WikiEnemySuffixes["_(Final_Fantasy_V)"] && ']' !in WikiEnemySuffixes["_(Final_Fantasy_V)"]
  {
    PlainSuffixReplace();
    PlainSuffixLookup();
    PlainSuffixChars();
  }

  lemma PlainSuffixLookup()
    ensures WikiEnemySuffixes["_(Final_Fantasy_V)"] == " (Final Fantasy V)"
  {
  }

  lemma PlainSuffixChars()
    ensures '/' !in "_(Final_Fantasy_V)"
    ensures '%' !in " (Final Fantasy V)" && ']' !in " (Final Fantasy V)"
  {
  }

  /** The display suffix is the page suffix with spaces for underscores, as the suffix table lists it. */
  lemma SuffixDisplay(name: string, pageType: PageType)
    requires pageType != SpecialCase
    ensures var suffix := PageSuffix(name, pageType).value;
      && Replace(suffix, "_", " ") == WikiEnemySuffixes[suffix]
      && '/' !in suffix
      && '%' !in WikiEnemySuffixes[suffix] && ']' !in WikiEnemySuffixes[suffix]
  {
    match pageType
    case PageWithFF5EnemyMarker => EnemySuffixDisplay();
    case PageWithFF5BossMarker => BossSuffixDisplay();
    case PageWithFF5Marker => PlainSuffixDisplay();
    case PageWithNoMarker =>
  }

  /**
   * The link derivation undoes the page derivation: from a URL prefix ending
   * in `/`, a slash-free stem made of `base` with underscores for spaces, and
   * a suffix whose underscores read as `display`, the link shows `base` and
   * `display`.
   */
  lemma LinkOfPage(prefix: string, base: string, suffix: string, display: string)
    requires |prefix| > 0 && prefix[|prefix| - 1] == '/'
    requires '_' !in base && '/' !in base && '%' !in base
    requires '/' !in suffix && '%' !in display && Replace(suffix, "_", " ") == display
    ensures Replace(Replace(LastSegment(prefix + Replace(base, " ", "_") + suffix), "_", " "), "%3F", "?")
            == base + display
  {
    var stem := Replace(base, " ", "_");
    ReplaceCharAt(base, ' ', '_');
    assert '/' !in stem + suffix by {
      forall i | 0 <= i < |stem| ensures stem[i] != '/' {
        assert base[i] in base;
      }
    }
    assert prefix + stem + suffix == prefix + (stem + suffix);
    LastSegmentAfterSlash(prefix, stem + suffix);
    ReplaceCharConcat(stem, suffix, '_', ' ');
    ReplaceCharInverse(base, ' ', '_');
    ReplaceAbsent(base + display, "%3F", "?");
  }

  lemma MainUrlEndsWithSlash()
    ensures |WikiMainUrl| > 0 && WikiMainUrl[|WikiMainUrl| - 1] == '/'
  {
  }

  /**
   * For an ordinary name, the page is the wiki URL, the base name with
   * underscores for spaces, and the page type's suffix; the plain link shows
   * the base name followed by the suffix as the suffix table spells it.
   */
  lemma OrdinaryWikiLink(name: string, pageType: PageType)
    requires WellFormedName(name) && name !in SpecialEnemies && pageType != SpecialCase
    ensures var suffix := PageSuffix(name, pageType).value;
      && WikiPage(name, pageType) == Ok(WikiMainUrl + Replace(BaseName(name), " ", "_") + suffix)
      && WikiLink(name, WikiPage(name, pageType).value)
         == "[[" + (BaseName(name) + WikiEnemySuffixes[suffix]) + "]]"
  {
    OrdinaryLinkText(name, pageType);
    OrdinaryDerivation(name, pageType, WikiMainUrl + Replace(BaseName(name), " ", "_") + PageSuffix(name, pageType).value);
  }

  /** The text an ordinary enemy's link shows: its base name and the suffix's display form. */
  lemma OrdinaryLinkText(name: string, pageType: PageType)
    requires WellFormedName(name) && pageType != SpecialCase
    ensures var suffix := PageSuffix(name, pageType).value;
      "[[" + Replace(Replace(LastSegment(WikiMainUrl + Replace(BaseName(name), " ", "_") + suffix), "_", " "), "%3F", "?") + "]]"
      == "[[" + (BaseName(name) + WikiEnemySuffixes[suffix]) + "]]"
  {
    SuffixDisplay(name, pageType);
    BaseNameChars(name);
    MainUrlEndsWithSlash();
    LinkOfPage(WikiMainUrl, BaseName(name), PageSuffix(name, pageType).value, WikiEnemySuffixes[PageSuffix(name, pageType).value]);
  }

  /**
   * For an ordinary name, what the page and link derivations compute. This
   * only unfolds `WikiPage` and `WikiLink`; it keeps that unfolding out of
   * the proofs that use it.
   */
  lemma OrdinaryDerivation(name: string, pageType: PageType, page: string)
    requires name !in SpecialEnemies && pageType != SpecialCase
    ensures WikiPage(name, pageType) == Ok(WikiMainUrl + Replace(BaseName(name), " ", "_") + PageSuffix(name, pageType).value)
    ensures WikiLink(name, page) == "[[" + Replace(Replace(LastSegment(page), "_", " "), "%3F", "?") + "]]"
  {
  }

  /** A bracketed link without `]` inside is closed exactly once. */
  lemma BracketedClosedOnce(body: string)
    requires ']' !in body
    ensures ClosedOnce("[[" + body + "]]")
  {
    var link := "[[" + body + "]]";
    assert link[..|link| - 2] == "[[" + body;
  }

  /** The custom link of a link closed once inserts `|name` just before the closing `]]`. */
  lemma CustomLinkOfClosed(name: string, link: string)
    requires ClosedOnce(link)
    ensures WikiLinkWithCustomText(name, link) == link[..|link| - 2] + "|" + name + "]]"
  {
    var x := link[..|link| - 2];
    assert link == x + "]]" + "";
    ReplaceAfterPrefix(x, "]]", "", "|" + name + "]]");
  }

  /** The custom link of a link closed once ends with `|`, the name and `]]`. */
  lemma CustomLinkEnds(name: string, link: string)
    requires ClosedOnce(link)
    ensures EndsWith(WikiLinkWithCustomText(name, link), "|" + name + "]]")
  {
    CustomLinkOfClosed(name, link);
    var x := link[..|link| - 2];
    assert x + "|" + name + "]]" == x + ("|" + name + "]]");
  }

  /** An ordinary enemy's plain link is closed once. */
  lemma OrdinaryLinkClosedOnce(name: string, pageType: PageType)
    requires WellFormedName(name) && name !in SpecialEnemies && pageType != SpecialCase
    ensures ClosedOnce(WikiLink(name, WikiPage(name, pageType).value))
  {
    OrdinaryWikiLink(name, pageType);
    SuffixDisplay(name, pageType);
    BaseNameChars(name);
    BracketedClosedOnce(BaseName(name) + WikiEnemySuffixes[PageSuffix(name, pageType).value]);
  }

  /** Whatever the name, the custom link ends with `|`, the name and `]]`. */
  lemma CustomLinkEndsWithName(name: string, pageType: PageType)
    requires ValidateEnemyName(name).Ok? && WikiPage(name, pageType).Ok?
    ensures EndsWith(WikiLinkWithCustomText(name, WikiLink(name, WikiPage(name, pageType).value)),
                     "|" + name + "]]")
  {
    var link := WikiLink(name, WikiPage(name, pageType).value);
    if name in SpecialEnemies {
      SpecialLinksClosedOnce();
      assert link == SpecialEnemies[name].wikiLink;
    } else {
      OrdinaryLinkClosedOnce(name, pageType);
    }
    CustomLinkEnds(name, link);
  }

  // ---------------------------------------------------------------------
  // What a constructed enemy holds

  /**
   * An ordinary enemy's page is built from its base name and its page type's
   * suffix, its plain link shows the base name and the suffix as the suffix
   * table spells it, and its custom link shows the full name instead.
   */
  lemma OrdinaryEnemyLinks(name: string, isBoss: bool, pageTypeField: string,
                           commonSteal: string, rareSteal: string,
                           commonDrop: string, rareDrop: string)
    requires WellFormedName(name) && name !in SpecialEnemies
    requires ParsePageType(pageTypeField).Ok? && ParsePageType(pageTypeField).value != SpecialCase
    ensures var r := NewEnemy(name, isBoss, pageTypeField, commonSteal, rareSteal, commonDrop, rareDrop);
      var suffix := PageSuffix(name, ParsePageType(pageTypeField).value).value;
      var target := BaseName(name) + WikiEnemySuffixes[suffix];
      && r.Ok?
      && r.value.wikiPage == WikiMainUrl + Replace(BaseName(name), " ", "_") + suffix
      && r.value.wikiLink == "[[" + target + "]]"
      && r.value.wikiLinkWithCustomText == PipedLink(target, name)
  {
    var pageType := ParsePageType(pageTypeField).value;
    ConstructedLinks(name, isBoss, pageTypeField, commonSteal, rareSteal, commonDrop, rareDrop);
    OrdinaryLinkFields(NewEnemy(name, isBoss, pageTypeField, commonSteal, rareSteal, commonDrop, rareDrop).value, pageType);
  }

  /** The page and links of an enemy whose fields were derived from an ordinary name. */
  lemma OrdinaryLinkFields(e: Enemy, pageType: PageType)
    requires WellFormedName(e.name) && e.name !in SpecialEnemies && pageType != SpecialCase
    requires WikiPage(e.name, pageType) == Ok(e.wikiPage)
    requires e.wikiLink == WikiLink(e.name, e.wikiPage)
    requires e.wikiLinkWithCustomText == WikiLinkWithCustomText(e.name, e.wikiLink)
    ensures var suffix := PageSuffix(e.name, pageType).value;
      var target := BaseName(e.name) + WikiEnemySuffixes[suffix];
      && e.wikiPage == WikiMainUrl + Replace(BaseName(e.name), " ", "_") + suffix
      && e.wikiLink == "[[" + target + "]]"
      && e.wikiLinkWithCustomText == PipedLink(target, e.name)
  {
    OrdinaryWikiLink(e.name, pageType);
    OrdinaryCustomLink(e.name, pageType);
  }

  /** An ordinary enemy's custom link is the piped link from its plain link's target to its name. */
  lemma OrdinaryCustomLink(name: string, pageType: PageType)
    requires WellFormedName(name) && name !in SpecialEnemies && pageType != SpecialCase
    ensures var target := BaseName(name) + WikiEnemySuffixes[PageSuffix(name, pageType).value];
      WikiLinkWithCustomText(name, "[[" + target + "]]") == PipedLink(target, name)
  {
    SuffixDisplay(name, pageType);
    BaseNameChars(name);
    BracketedCustomLink(BaseName(name) + WikiEnemySuffixes[PageSuffix(name, pageType).value], name);
  }

  /**
   * Where a constructed enemy's page and links come from. This only unfolds
   * `NewEnemy`; it keeps that unfolding out of the proofs that use it.
   */
  lemma ConstructedLinks(name: string, isBoss: bool, pageTypeField: string,
                         commonSteal: string, rareSteal: string,
                         commonDrop: string, rareDrop: string)
    requires NewEnemy(name, isBoss, pageTypeField, commonSteal, rareSteal, commonDrop, rareDrop).Ok?
    ensures var e := NewEnemy(name, isBoss, pageTypeField, commonSteal, rareSteal, commonDrop, rareDrop).value;
      && WikiPage(name, e.pageType) == Ok(e.wikiPage)
      && e.wikiLink == WikiLink(name, e.wikiPage)
      && e.wikiLinkWithCustomText == WikiLinkWithCustomText(name, e.wikiLink)
  {
  }

  /** Adding custom text to an unpiped link makes it a piped link. */
  lemma BracketedCustomLink(target: string, name: string)
    requires ']' !in target
    ensures WikiLinkWithCustomText(name, "[[" + target + "]]") == PipedLink(target, name)
  {
    var link := "[[" + target + "]]";
    BracketedClosedOnce(target);
    CustomLinkOfClosed(name, link);
    assert link[..|link| - 2] == "[[" + target;
  }

  /** A special-case enemy takes its page name and its plain link from the table. */
  lemma SpecialEnemyLinks(name: string, isBoss: bool, pageTypeField: string,
                          commonSteal: string, rareSteal: string,
                          commonDrop: string, rareDrop: string)
    requires name in SpecialEnemies && ParsePageType(pageTypeField).Ok?
    ensures var r := NewEnemy(name, isBoss, pageTypeField, commonSteal, rareSteal, commonDrop, rareDrop);
      var link := SpecialEnemies[name].wikiLink;
      && r.Ok?
      && r.value.wikiPage == WikiMainUrl + SpecialEnemies[name].pageName
      && r.value.wikiLink == link
      && |link| >= 2
      && r.value.wikiLinkWithCustomText == link[..|link| - 2] + "|" + name + "]]"
  {
    SpecialLinksClosedOnce();
    CustomLinkOfClosed(name, SpecialEnemies[name].wikiLink);
  }

  /** Adding custom text to a piped link appends it to the link's own text. */
  lemma PipedCustomLink(target: string, text: string, name: string)
    requires ']' !in target && ']' !in text
    ensures WikiLinkWithCustomText(name, PipedLink(target, text)) == PipedLink(target, text + "|" + name)
  {
    PipedLinkClosedOnce(target, text);
    CustomLinkOfClosed(name, PipedLink(target, text));
    var link := PipedLink(target, text);
    assert link[..|link| - 2] == "[[" + target + "|" + text;
  }

  /**
   * The special links are already piped, so their custom links carry two
   * pipes: the `???` enemy's custom link shows `???|???`.
   */
  lemma MysteryEnemyCustomLink(isBoss: bool, pageTypeField: string,
                               commonSteal: string, rareSteal: string,
                               commonDrop: string, rareDrop: string)
    requires ParsePageType(pageTypeField).Ok?
    ensures var r := NewEnemy("???", isBoss, pageTypeField, commonSteal, rareSteal, commonDrop, rareDrop);
      r.Ok? && r.value.wikiLinkWithCustomText == PipedLink("??? (Final Fantasy V)", "???|???")
  {
    MysteryLinkIsPiped();
    MysteryTargetChars();
    PipedCustomLink("??? (Final Fantasy V)", "???", "???");
  }

  lemma MysteryLinkIsPiped()
    ensures "???" in SpecialEnemies
    ensures SpecialEnemies["???"].wikiLink == PipedLink("??? (Final Fantasy V)", "???")
  {
  }

  lemma MysteryTargetChars()
    ensures ']' !in "??? (Final Fantasy V)" && ']' !in "???"
  {
  }

  /** A name starting with a lower-case letter is rejected before anything else is looked at. */
  lemma LowerCaseNameRejected(pageTypeField: string)
    ensures NewEnemy("goblin", false, pageTypeField, "", "", "", "") == Err(InvalidName("goblin"))
  {
    NotSpecialByInitial("goblin");
  }

  /** A page-type field outside 0..4 is rejected once the name has passed. */
  lemma OutOfRangePageTypeRejected()
    ensures NewEnemy("Goblin", false, "5", "", "", "", "") == Err(InvalidPageType("5"))
  {
    NotSpecialByInitial("Goblin");
    assert PageTypeOfField("5") == FromCode(5) by {
      SingleDigitField('5');
    }
  }

  /** An ordinary name whose page-type field is `"4"` (`SPECIAL_CASE`) is refused with that error. */
  lemma SpecialCaseFieldRejected()
    ensures NewEnemy("Goblin", false, "4", "", "", "", "") == Err(SpecialCasePageType("Goblin"))
  {
    NotSpecialByInitial("Goblin");
    assert PageTypeOfField("4") == FromCode(4) by {
      SingleDigitField('4');
    }
  }

  /** The goblin of the bestiary: its custom link as item pages show it. */
  lemma GoblinCustomLink(commonSteal: string, rareSteal: string, commonDrop: string, rareDrop: string)
    ensures var r := NewEnemy("Goblin", false, "0", commonSteal, rareSteal, commonDrop, rareDrop);
      r.Ok? && r.value.wikiLinkWithCustomText == PipedLink("Goblin" + " (Final Fantasy V enemy)", "Goblin")
  {
    GoblinIsOrdinary();
    OrdinaryEnemyLinks("Goblin", false, "0", commonSteal, rareSteal, commonDrop, rareDrop);
    assert BaseName("Goblin") + WikiEnemySuffixes[PageSuffix("Goblin", PageWithFF5EnemyMarker).value]
           == "Goblin" + " (Final Fantasy V enemy)" by {
      EnemySuffixLookup();
    }
  }

  /** "Goblin" takes the ordinary path, and page type field "0" asks for the enemy marker. */
  lemma GoblinIsOrdinary()
    ensures WellFormedName("Goblin") && "Goblin" !in SpecialEnemies && BaseName("Goblin") == "Goblin"
    ensures ParsePageType("0") == Ok(PageWithFF5EnemyMarker)
    ensures PageSuffix("Goblin", PageWithFF5EnemyMarker).value == "_(Final_Fantasy_V_enemy)"
  {
    GoblinName();
    ZeroField();
  }

  lemma GoblinName()
    ensures WellFormedName("Goblin") && "Goblin" !in SpecialEnemies && BaseName("Goblin") == "Goblin"
  {
    NotSpecialByInitial("Goblin");
    BeforeFirstAbsent("Goblin", " (");
  }

  lemma ZeroField()
    ensures ParsePageType("0") == Ok(PageWithFF5EnemyMarker)
  {
    SingleDigitField('0');
  }

  /** A special-case name is accepted even though it breaks the format rule. */
  lemma SpecialNameBypassesFormat()
    ensures !WellFormedName("???")
    ensures ValidateEnemyName("???") == Ok("???")
  {
    MysteryLinkIsPiped();
  }
}
