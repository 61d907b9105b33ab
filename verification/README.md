# FF5 wiki utilities, modelled in Dafny

This project models the core of `ff5-wiki-utils`, a tool that writes the
"dropped by / stolen from" lines of Final Fantasy V item pages on the
Final Fantasy wiki. It has three parts.

- **Enemies** (`enemy.dfy`, module `Enemies`). An enemy is an immutable
  value built by `NewEnemy`, which mirrors the `FF5Enemy` constructor:
  - it validates the name against the special-case table and the format rule;
  - it converts the page-type field;
  - it resolves the wiki page URL;
  - it derives the plain link and the link with the enemy's full name as text;
  - it classifies the steal slots and the drop slots into one of five
    natures.

  An `Err` result stands for the exception the constructor raises.
- **Bestiary** (`bestiary.dfy`, module `Bestiaries`). The loader walks the
  rows of the enemy file and of the boss file. It skips empty rows,
  rows of the wrong width, the header row and rows with an empty name. It
  builds one enemy per remaining row, in row order, and the first failure
  aborts the load. `InitEnemies` is that loop, proved equal to the
  specification `EnemiesFromRows`.
- **Items** (`item.dfy`, module `Items`). `Item` is a class with the seven
  bucket lists as fields. Its constructor walks the bestiary once, regular
  enemies first, and appends each enemy to the buckets its natures and
  slots select. `GetWikiReadyReferences` renders the non-empty buckets in
  their fixed order. The model files enemies as the code does
  (`ff5_wiki/item.py:153-155`): the common-steal bucket also takes enemies
  with a common steal and no rare steal at all, although the docstring at
  `ff5_wiki/item.py:90-92` describes it as holding enemies with a different
  item as their rare steal.

The supporting modules hold the following:
- `common.dfy` (module `Wiki`): the wiki's constant data, namely the base
  URL, the suffix table and the special-case enemies.
- `enemy_page_type.dfy` (module `PageTypes`): the page-type enum.
- `enemy_nature.dfy` (module `Natures`): the steal and drop natures. The two
  source enums are identical, so one datatype serves both.
- `text.dfy` (module `Text`): the Python string operations the code relies
  on, written out over `seq<char>`. These are `str.replace`,
  `split(" (")[0]`, `split('/')[-1]` and `join`.
- `wrappers.dfy`: `Option` and `Result`.

An item slot is a `string`, and `""` means "no item", as Python's
truthiness treats it. The CSV loader always passes strings.

## Model

| member | source | states |
|---|---|---|
| Enemies.ValidateEnemyName | ff5_wiki/enemy.py:153-173 | An empty name is `EmptyName`. A special-case name is accepted unchanged. Any other name is accepted, unchanged, iff it starts with A–Z and uses only letters, digits and ` '.()-#`. A rejected non-empty name is `InvalidName(name)`. |
| Enemies.SpecialNameBypassesFormat | ff5_wiki/enemy.py:166-167 | `"???"` breaks the format rule, yet it is accepted because it is in the special-case table. |
| Enemies.LowerCaseNameRejected | ff5_wiki/enemy.py:168-169 | Building `"goblin"` fails with `InvalidName("goblin")`, whatever the page type. |
| Enemies.ParsePageType | ff5_wiki/enemy.py:21 | The conversion succeeds exactly when the field is a non-empty string of decimal digits whose value is at most 4. The page type obtained has that value as its code. A failure is `InvalidPageType(field)`. |
| Enemies.OutOfRangePageTypeRejected | ff5_wiki/enemy.py:21 | A valid name with page-type field `"5"` fails with `InvalidPageType("5")`. |
| PageTypes.FromCode | ff5_wiki/enemy_page_type.py:4-9 | A member exists exactly for the codes 0..4, and the member found has that code. |
| PageTypes.CodeRoundTrip | ff5_wiki/enemy_page_type.py:4-9 | Every member is found again from its code. |
| PageTypes.PageTypeOfField | ff5_wiki/enemy.py:21 | A field converts exactly when it is a non-empty string of decimal digits with value 0..4, and it converts to the member whose code is that value. |
| PageTypes.LeadingZeroField | ff5_wiki/enemy.py:21 | `"03"` converts, to the same member as `"3"`. |
| PageTypes.FieldRoundTrip | ff5_wiki/enemy.py:21 | Writing a member's code as one digit and converting the field back gives the member. |
| PageTypes.SingleDigitField | ff5_wiki/enemy.py:21 | A one-digit field names the member whose code is that digit. |
| Enemies.PageSuffix | ff5_wiki/enemy.py:195-208 | The suffix is an error exactly for `SPECIAL_CASE`, with `SpecialCasePageType(name)`. Any other suffix is one of the suffix table's keys. |
| Enemies.PageSuffixByCode | ff5_wiki/enemy.py:197-204 | Each ordinary page type selects the suffix table key at the position of its enum value: enemy marker, boss marker, FF5 marker, then the empty suffix. |
| Wiki.SuffixKeysListTable | ff5_wiki/common.py:16-21 | The ordered key list holds exactly the suffix table's keys, each once. |
| Enemies.WikiPage | ff5_wiki/enemy.py:175-193 | A special name's page is the wiki URL plus the table's page name. For any other name, the page is an error exactly when the page type is `SPECIAL_CASE`. |
| Enemies.Classify | ff5_wiki/enemy.py:243-271 | Each of the five natures holds exactly when its slot condition holds: both slots filled and different; both filled and equal; only common; only rare; neither. |
| Enemies.NewEnemy | ff5_wiki/enemy.py:18-30 | Validation errors come first, then page-type errors. An ordinary name whose page type is `SPECIAL_CASE` fails with `SpecialCasePageType(name)`. Construction succeeds iff the name is valid, the field parses, and the name is special or the page type is not `SPECIAL_CASE`. A built enemy keeps its inputs, classifies its slots, and its custom link ends with `"\|" + name + "]]"`. |
| Enemies.SpecialCaseFieldRejected | ff5_wiki/enemy.py:205-206 | Building `"Goblin"` with page-type field `"4"` fails with `SpecialCasePageType("Goblin")`. |
| Enemies.SuffixDisplay | ff5_wiki/common.py:16-21 | Each hard-coded page suffix, with underscores read as spaces, is the display form the suffix table gives it, and it holds no `/`. |
| Enemies.LinkOfPage | ff5_wiki/enemy.py:224-233 | Taking the last `/` segment and turning `_` back into spaces undoes the page derivation, so `WikiLink` of an ordinary name gives back the base name and suffix. The link text is the base name plus the suffix's display form. |
| Enemies.OrdinaryWikiLink | ff5_wiki/enemy.py:175-233 | For an ordinary name, the page is the URL, plus the base name with spaces as `_`, plus the suffix. The plain link, computed as at lines 224-233, is `[[` base name and display suffix `]]`. |
| Enemies.OrdinaryCustomLink | ff5_wiki/enemy.py:235-241 | An ordinary enemy's custom link is the piped link from its plain link's target to its full name. |
| Enemies.CustomLinkEndsWithName | ff5_wiki/enemy.py:235-241 | For every accepted name, special or not, the custom link that `WikiLinkWithCustomText` makes ends with `\|`, the name and `]]`. |
| Enemies.OrdinaryEnemyLinks | ff5_wiki/enemy.py:175-241 | Building an enemy with a well-formed ordinary name and a non-special page type succeeds. Its page is the URL, the underscored base name and the suffix. Its link is `[[target]]` and its custom link is `[[target\|name]]`. |
| Enemies.SpecialEnemyLinks | ff5_wiki/enemy.py:210-231 | A special enemy's page is the URL plus the table's page name. Its link is the table's link verbatim. Its custom link puts `\|name` before the link's closing `]]`. |
| Enemies.PipedCustomLink | ff5_wiki/enemy.py:241 | Adding custom text to an already piped link appends `\|name` to the link's own text. |
| Enemies.MysteryEnemyCustomLink | ff5_wiki/enemy.py:241 | The `???` enemy's custom link is `[[??? (Final Fantasy V)\|???\|???]]`, with two pipes. |
| Enemies.GoblinCustomLink | ff5_wiki/enemy.py:175-241 | A goblin with page type 0 is built, and its custom link is `[[Goblin (Final Fantasy V enemy)\|Goblin]]`. |
| Wiki.SpecialLinksClosedOnce | ff5_wiki/common.py:25-62 | Every special-case link ends with `]]` and has no other `]`. |
| Wiki.MysteryLinkLiteral | ff5_wiki/common.py:26-29 | The `???` row's link is `[[??? (Final Fantasy V)\|???]]`. |
| Wiki.NotSpecialByInitial | ff5_wiki/common.py:25-62 | A name that does not start with `?`, `H`, `L` or `E` is not a special case. |
| Bestiaries.InitEnemies | ff5_wiki/bestiary.py:52-65 | The loop returns exactly `EnemiesFromRows`: the kept rows' enemies in row order, or the first construction error. |
| Bestiaries.RecordsMembership | ff5_wiki/bestiary.py:57-62 | A record is produced iff some row is kept and unpacks to it. A row is kept when it is non-empty, six fields wide, not the header, and named. |
| Bestiaries.UnkeptRowIgnored | ff5_wiki/bestiary.py:57-62 | An extra row that is not kept, such as a six-field row with an empty name, changes neither the enemies nor the error. |
| Bestiaries.AllRowsKept | ff5_wiki/bestiary.py:60-63 | When every row is kept, record `j` is row `j`'s six fields by position. |
| Bestiaries.HeaderOnly | ff5_wiki/bestiary.py:57-58 | A file holding only the header row loads no enemies. |
| Bestiaries.ConstructAllOk | ff5_wiki/bestiary.py:63 | Loading succeeds iff every record builds. The enemies are then the records' enemies, one per record, in order. |
| Bestiaries.ConstructAllFirstError | ff5_wiki/bestiary.py:63 | A failed load reports the error of the first record that fails; every earlier record builds. |
| Bestiaries.FirstErrorStops | ff5_wiki/bestiary.py:63 | Once the rows so far fail, the remaining rows do not change the error. No partial list is returned. |
| Bestiaries.LoadedEnemies | ff5_wiki/bestiary.py:15-17 | Every enemy loaded from a file carries that file's boss flag and is valid. |
| Bestiaries.AllEnemiesSplit | ff5_wiki/bestiary.py:41-46 | `all_enemies` has the two lists' combined length. Entry `i` is a boss iff it comes after the regular enemies. |
| Bestiaries.LoadBestiary | ff5_wiki/bestiary.py:15-17 | The bestiary is the regular enemies' file loaded with flag false, then the bosses' file with flag true. A loaded bestiary is valid. |
| Items.Item.constructor | ff5_wiki/item.py:13-32 | After construction, every bucket holds exactly the bestiary's enemies routed to it, in visiting order. The sections are the item's reference sections. |
| Items.Item.PopulateEnemyLists | ff5_wiki/item.py:138-141 | Visiting `enemies + bosses` appends to each bucket exactly the enemies routed to it, in order. |
| Items.Item.CheckStealableItems | ff5_wiki/item.py:143-162 | Only steal buckets change, and each gains the enemy iff its steal nature and slot route it there. |
| Items.Item.CheckDroppableItems | ff5_wiki/item.py:164-183 | Only drop buckets change, and each gains the enemy iff its drop nature and slot route it there. |
| Items.Item.GetWikiReadyReferences | ff5_wiki/item.py:122-136 | The text is empty iff every bucket is empty. |
| Items.RoutedBySlots | ff5_wiki/item.py:143-183 | For a valid enemy, nature-driven routing agrees with a rule read off the slots alone. A rare-only steal goes to the unique-rare bucket; a rare-only drop goes to the rare-drop bucket. |
| Items.AtMostOneBucketPerMechanic | ff5_wiki/item.py:143-183 | A valid enemy lands in at most one steal bucket and at most one drop bucket. |
| Items.EveryMentionRouted | ff5_wiki/item.py:143-183 | A valid enemy naming the item in a steal slot lands in some steal bucket, and likewise for drops. |
| Items.SelectMembership | ff5_wiki/item.py:138-183 | A bucket holds an enemy iff the enemy was visited and is routed to that bucket. |
| Items.BucketSlotsMatch | ff5_wiki/item.py:143-183 | Every enemy in a steal bucket has the item as a steal slot, and every enemy in a drop bucket has it as a drop slot. |
| Items.SelectConcat | ff5_wiki/item.py:139-141 | Filing `xs + ys` fills each bucket with `xs`'s entries, then `ys`'s. |
| Items.ItemBucketsOrder | ff5_wiki/item.py:139 | In every bucket, the regular enemies' entries come before the bosses'. |
| Items.RenderSection | ff5_wiki/item.py:136 | A section's line starts with its bucket's prefix. |
| Items.RenderEmpty | ff5_wiki/item.py:136 | The rendered text is empty iff every section is empty. |
| Items.RenderSingle | ff5_wiki/item.py:136 | With one non-empty section, the text is that section's prefix and its links joined by `", "`, and nothing else. |
| Items.RenderStartsWithFirst | ff5_wiki/item.py:126-136 | The text starts with the prefix of the first non-empty section. |
| Items.RenderCons | ff5_wiki/item.py:136 | `Render` read from the front: a non-empty first section gives its line, then `<br/>` and a newline before the rest's text when that is non-empty. An empty first section adds nothing. |
| Items.RenderTwo | ff5_wiki/item.py:136 | Two non-empty sections render as the first line, `<br/>` and a newline, then the second line. |
| Items.NoMentionNoReferences | ff5_wiki/item.py:122-183 | An item that no enemy names in any slot gets empty text. |
| Items.SingleGuaranteedDrop | ff5_wiki/item.py:171-173 | An item found on one enemy only, as its guaranteed drop and in none of its steal slots, gets the guaranteed-drop prefix and that enemy's custom link, whatever else the enemy can be stolen from. |
| Items.GoblinDaggerReferences | ff5_wiki/item.py:122-136 | A goblin that always drops a dagger gives the dagger the text `'''Guaranteed drop:''' [[Goblin (Final Fantasy V enemy)\|Goblin]]`. |

## Left out

- The page-existence check (`ff5_wiki/common.py:64-92`) is an HTTP HEAD request. The enemy code always calls it with `skip` set (`ff5_wiki/enemy.py:16`), so it answers true. The model takes it as true. "No appropriate wiki page" (`ff5_wiki/enemy.py:190-193`) and the special-page assertion (`ff5_wiki/enemy.py:220`) are therefore unreachable and not modelled.
- Opening the CSV files and parsing them with `csv.reader` (`ff5_wiki/bestiary.py:55-56`) is I/O. A file is given as its sequence of rows, each row a sequence of fields.
- `main.py` (reading the item list, printing) is a driver and is not part of this model.
- `__repr__` / `__str__` of enemies and items are JSON formatting through `json.dumps`.
- The property setters raise `AttributeError`. In the model, enemies and bestiaries are immutable values, and an item's name and bestiary are `const` fields.
- The `case _` branches (`ff5_wiki/enemy.py:207-208`, `ff5_wiki/item.py:161-162`, `182-183`) cannot be reached with closed datatypes.
- PageTypes.PageTypeOfField: Python's `int()` also accepts surrounding whitespace, a sign, `_` between digits and non-ASCII digits. The model accepts only ASCII digit strings, so a field such as `" 0"` is rejected here but accepted by the source.
- Enemies.ParsePageType: converts through `PageTypes.PageTypeOfField`, so it has the same gap: a field such as `" 0"` or `"+0"` is an `InvalidPageType` error here but is accepted by the source.
- Exception message texts are not modelled. An error is the `EnemyError` constructor that names its cause.
- A `None` slot is not modelled. The loader always passes strings, and `""` plays the absent slot.
- Text.Replace: only non-empty patterns are modelled, which are the only ones the code uses.
- The special-case links are written in the model through `PipedLink` (same values as the table's literals; `Wiki.MysteryLinkLiteral` spells one out).
- Items.SectionsFor: its own contract states only that there are seven sections. What each section holds is stated by `Items.Item.constructor` and the routing lemmas.
