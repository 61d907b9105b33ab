/** The wiki's fixed data: its base URL, the page-name suffix table and the special-case enemies. */
module Wiki {

  const WikiMainUrl: string := "https://finalfantasy.fandom.com/wiki/"

  /**
   * Page-name suffix (underscores, as in a URL) to the same suffix as it reads
   * in link text (spaces). The enemy code hard-codes the keys; the values are
   * the display forms the links end up with.
   */
  const WikiEnemySuffixes: map<string, string> := map[
    "_(Final_Fantasy_V_enemy)" := " (Final Fantasy V enemy)",
    "_(Final_Fantasy_V_boss)" := " (Final Fantasy V boss)",
    "_(Final_Fantasy_V)" := " (Final Fantasy V)",
    "" := ""
  ]

  /** The suffix table's keys in the order the table lists them, most specific first. */
  const SuffixKeys: seq<string> :=
    ["_(Final_Fantasy_V_enemy)", "_(Final_Fantasy_V_boss)", "_(Final_Fantasy_V)", ""]

  /** The listed keys are exactly the suffix table's keys, each listed once. */
  lemma SuffixKeysListTable()
    ensures forall k | 0 <= k < |SuffixKeys| :: SuffixKeys[k] in WikiEnemySuffixes
    ensures forall s | s in WikiEnemySuffixes :: s in SuffixKeys
    ensures forall i, j | 0 <= i < j < |SuffixKeys| :: SuffixKeys[i] != SuffixKeys[j]
  {
  }

  /** One row of the special-case table: the wiki page name and the literal link markup. */
  datatype SpecialEnemy = SpecialEnemy(pageName: string, wikiLink: string)

  /** The wiki's piped link markup `[[target|text]]`. */
  function PipedLink(target: string, text: string): string {
    "[[" + target + "|" + text + "]]"
  }

  /**
   * Enemies whose names do not follow the usual page-naming convention.
   * Each link is written with `PipedLink`; `MysteryLinkLiteral` shows the
   * first one spelled out.
   */
  const SpecialEnemies: map<string, SpecialEnemy> := map[
    "???" := SpecialEnemy("%3F%3F%3F_(Final_Fantasy_V)", PipedLink("??? (Final Fantasy V)", "???")),
    "Hole (boss)" := SpecialEnemy("Hole_(Sandworm_battle)", PipedLink("Hole (Sandworm battle)", "Hole")),
    "Launcher (boss #260)" := SpecialEnemy("Launcher_(Soul_Cannon)", PipedLink("Launcher (Soul Cannon)", "Launcher (boss #260)")),
    "Launcher (boss #261)" := SpecialEnemy("Launcher_(Soul_Cannon)", PipedLink("Launcher (Soul Cannon)", "Launcher (boss #261)")),
    "Exdeath (Great Forest of Moore - boss)" := SpecialEnemy("Exdeath_(boss)", PipedLink("Exdeath (boss)", "Exdeath (Great Forest of Moore - boss)")),
    "Exdeath (boss #285)" := SpecialEnemy("Exdeath_(boss)", PipedLink("Exdeath (boss)", "Exdeath (boss #285)")),
    "Exdeath (boss #313)" := SpecialEnemy("Exdeath_(tree form)", PipedLink("Exdeath (tree form)", "Exdeath (boss #313)")),
    "Launcher (boss #318)" := SpecialEnemy("Launcher_(Guardian)", PipedLink("Launcher (Guardian)", "Launcher (boss #318)")),
    "Launcher (boss #319)" := SpecialEnemy("Launcher_(Guardian)", PipedLink("Launcher (Guardian)", "Launcher (boss #319)"))
  ]

  lemma MysteryLinkLiteral()
    ensures SpecialEnemies["???"].wikiLink == "[[??? (Final Fantasy V)|???]]"
  {
  }

  /** Every special-case name starts with `?`, `H`, `L` or `E`. */
  lemma SpecialNameInitials()
    ensures forall k | k in SpecialEnemies :: |k| > 0 && k[0] in "?HLE"
  {
  }

  /** A name whose first character no special-case name starts with is not a special case. */
  lemma NotSpecialByInitial(name: string)
    requires |name| > 0 && name[0] !in "?HLE"
    ensures name !in SpecialEnemies
  {
    SpecialNameInitials();
  }

  /** Link markup that ends in `]]` and has no other `]` before that. */
  predicate ClosedOnce(link: string) {
    |link| >= 2 && link[|link| - 2..] == "]]" && ']' !in link[..|link| - 2]
  }

  /** A piped link whose target and text hold no `]` is closed once. */
  lemma PipedLinkClosedOnce(target: string, text: string)
    requires ']' !in target && ']' !in text
    ensures ClosedOnce(PipedLink(target, text))
  {
    var link := PipedLink(target, text);
    assert link[..|link| - 2] == "[[" + target + "|" + text;
  }

  /** Every special-case link is a piped link closed exactly once, at its end. */
  lemma SpecialLinksClosedOnce()
    ensures forall name | name in SpecialEnemies :: ClosedOnce(SpecialEnemies[name].wikiLink)
  {
    PipedLinkClosedOnce("??? (Final Fantasy V)", "???");
    PipedLinkClosedOnce("Hole (Sandworm battle)", "Hole");
    PipedLinkClosedOnce("Launcher (Soul Cannon)", "Launcher (boss #260)");
    PipedLinkClosedOnce("Launcher (Soul Cannon)", "Launcher (boss #261)");
    PipedLinkClosedOnce("Exdeath (boss)", "Exdeath (Great Forest of Moore - boss)");
    PipedLinkClosedOnce("Exdeath (boss)", "Exdeath (boss #285)");
    PipedLinkClosedOnce("Exdeath (tree form)", "Exdeath (boss #313)");
    PipedLinkClosedOnce("Launcher (Guardian)", "Launcher (boss #318)");
    PipedLinkClosedOnce("Launcher (Guardian)", "Launcher (boss #319)");
  }
}
