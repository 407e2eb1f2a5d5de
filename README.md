# corpmorpho core, modelled in Dafny

corpmorpho is a set of Czech morphology tools. It reads a paradigm file and a dictionary
file into a morphological database. It derives each paradigm's common suffix and generates
word forms from lemmas. It guesses paradigms from suffix statistics and evaluates those
guesses against logs and corpora. This project models that core as Dafny code and proves
what the code promises about it.

A file is modelled as the sequence of its lines, each as Python's file iteration yields it
(possibly ending in "\n"). A Python `dict` whose insertion order matters is an ordered map
(`OrderedMaps.OMap`, a sequence of key/value pairs). An exception the code can raise on
malformed input is an `Err(Raised)` result (`Wrappers.Result`), not a precondition.

Modules, one per source file:

- `MorphDb` (`morph_database.dfy`): `morph_database.py`'s `MorphDatabase` as a class. It
  covers common-suffix derivation, root stripping, lemma forms, the spread table and
  productive paradigms.
- `MorphFiles` (`morph_files.dfy`): the line grammars of the paradigm and dictionary files,
  the encoding repair, and the crossing of heads with ending groups (`paradigm_db`).
- `SortedLists` (`sorted_list.dfy`): `compare_segmenters.py`'s `SortedList` as a class over
  an arena of cells with index links. It keeps the source's defects in `pop` and
  `increase_value`. `SortedListProofs` (`sorted_list_proofs.dfy`) proves what the list
  guarantees and where those defects show.
- `CompareSegmenters`: the bounded suffix cache of `most_common_suffixes`, the top-n hit
  test of `evaluate`, and the length weighting of `scores`.
- `DbStats`: `corpus_generator`, the frequency-list row loop, `lemma_scores`,
  `occurring_forms` and `word_similarity`.
- `GroupWordForms`: `split_by_two`, `extract_common_tags`, `compress_tags`,
  `add_morph_db`, `read_corpora` and the log2 bucketing of `db_stats`.
- `EvalLogs`: `top_n_check`.
- `CorpusStats`: `attribute_stat` and `stat_tree`.
- `Guesser`: the suffix candidates of `guess_paradigm` and the delegation of
  `guess_paradigm_from_lemma`.
- `TrainTuneTest`, `VertToPrevert`: the two `desam` scripts' main loops. Their output files
  are sequences of lines.
- Helper modules: `Text` (the Python string operations used), `OrderedMaps`, `Sums`
  and `Wrappers`.

On equal counts `SortedListCell` ranks the strictly shorter name higher
(`compare_segmenters.py:21-27`); `SortedLists.Gt` follows that.

## Model

| member | source | states |
|---|---|---|
| MorphDb.SuffixOfBounds | morph_database.py:57-62 | The common suffix `paradigm_suffixes` stores ends the paradigm name; when the lemma part (before the first "_") holds the first affix, it starts with that affix at its last occurrence there; otherwise `rfind` gives -1 and it is the name's last character |
| MorphDb.SuffixOfCut | morph_database.py:60-62 | When the lemma part holds the affix, the stored suffix is the lemma part from the affix's last occurrence on, followed by the rest of the name, which is empty or starts with "_" |
| MorphDb.CommonSuffixSplitsStem | morph_database.py:52-62 | The common suffix `word_root` reads back (the stored suffix before its first "_") ends the lemma part and starts with the affix: it is exactly the lemma part from the affix's last occurrence |
| MorphDb.CutSuffix | morph_database.py:54 | Cutting at "_" a tail without "_" that is followed by nothing or by "_" gives that tail back |
| MorphDb.LeadingWithAffixes | morph_database.py:59-62 | Counts the paradigms from the front that have an affix: all before the count have one, the one at the count has none |
| MorphDb.SuffixesAssigned | morph_database.py:59-62 | The table after the suffix loop has as many paradigms as before |
| MorphDb.SuffixAssignedStep | morph_database.py:62 | Assigning paradigm i its suffix extends by one the prefix of paradigms that hold their assigned suffix, the rest unchanged |
| MorphDb.MorphDatabase.ParadigmSuffixes | morph_database.py:57-62 | Gives each paradigm in order its common suffix; a paradigm without affixes raises IndexError (`[0]` of an empty key list) and leaves it and later paradigms unchanged; succeeds exactly when every paradigm has an affix; vocabulary untouched |
| MorphDb.MorphDatabase.WordRoot | morph_database.py:52-55 | KeyError exactly for an unknown paradigm; otherwise a prefix of the lemma: the lemma itself when the common suffix is empty, else the lemma shortened by the common suffix's length (empty when longer), and root + common suffix == lemma when the lemma ends with it |
| MorphDb.MorphDatabase.LemmaForms | morph_database.py:44-50 | KeyError exactly for an unknown paradigm; otherwise exactly the set of root + affix over the paradigm's affixes, so no more forms than affixes |
| MorphDb.SpellsWithAffix | morph_database.py:36-38 | The inner affix loop answers true exactly when the word is root + some affix |
| MorphDb.AffixesExtendRoot | morph_database.py:34-35 | Skipping a paradigm whose root does not start the word loses no hit |
| MorphDb.MorphDatabase.FormPresent | morph_database.py:31-42 | True when some paradigm's lower-cased name root plus an affix spells the word; otherwise the vocabulary scan's answer, where an entry naming an unknown paradigm raises KeyError |
| MorphDb.InitialSpread | morph_database.py:69-70 | A reset spread has the paradigm's affixes as keys, each mapped to 0.0 |
| MorphDb.ResetSpread | morph_database.py:67-70 | Every paradigm keeps its name and data, with its spread replaced by the initial one |
| MorphDb.SpreadRowsShape | morph_database.py:71-78 | Applying frequency rows changes only spreads: names, affix tables and common suffixes stay |
| MorphDb.SpreadFieldsShape | morph_database.py:73-78 | One accepted row changes only spreads |
| MorphDb.SpreadFieldsWrite | morph_database.py:73-78 | One accepted row writes exactly the key its target names (the word after the root length of a known paradigm) with its number, every other entry unchanged |
| MorphDb.SpreadRowWrites | morph_database.py:73-78 | The same for a raw line, after strip and split |
| MorphDb.SpreadLookup | morph_database.py:71-78 | When all rows go through, each spread entry holds the number of the last row that wrote it (overwrite, not add), or its starting value |
| MorphDb.ApplyRowsStop | morph_database.py:72-74 | When the row loop raises, it is at some row, all rows before which went through |
| MorphDb.ApplyRowsErrSticks | morph_database.py:72-74 | Once a row raises, later rows change nothing |
| MorphDb.MorphDatabase.FormSpread | morph_database.py:64-78 | Resets every spread, then applies the rows in order, stopping with the error of the first row with too few fields; vocabulary untouched, no paradigm stored twice |
| MorphDb.ResetKeepsDistinct | morph_database.py:64-78 | Resetting and applying rows never stores a paradigm twice |
| MorphDb.ProductiveErrSticks | morph_database.py:25-28 | Once collecting derived paradigms fails, later entries change nothing |
| MorphDb.ProductiveErrors | morph_database.py:23-29 | Collecting fails exactly when some derived entry (lemma part differing from the paradigm's) names a paradigm the database lacks, with KeyError |
| MorphDb.ProductiveContents | morph_database.py:23-29 | On success no paradigm is collected twice and each carries the database's data |
| MorphDb.ProductiveKeys | morph_database.py:23-29 | On success a paradigm is collected exactly when some derived entry names it |
| MorphDb.MorphDatabase.ProductiveParadigms | morph_database.py:23-29 | The loop computes the collection; fails exactly when a derived entry names an unknown paradigm; the result has no repeated key |
| MorphDb.MorphDatabase.constructor | morph_database.py:14-19 | A database over the paradigm tables and the vocabulary, with no common suffix or spread assigned yet |
| MorphFiles.CorrectEncoding | morph_database.py:154-156 | The repaired line has the input's length and maps each character through the five fixed replacements (ą→š, ľ→ž, »→ť, ®→Ž, ©→Š), leaving every other character alone |
| MorphFiles.CorrectEncodingIdempotent | morph_database.py:154-156 | Repairing twice is repairing once |
| MorphFiles.CorrectEncodingKeepsClean | morph_database.py:154-156 | A line without the five garbled letters is unchanged |
| MorphFiles.ParadigmLine | morph_database.py:136-149 | One paradigm-file line can raise only when it is a `\t{` or a `\t<` line |
| MorphFiles.GroupLine | morph_database.py:138-140 | A `=` line opens an empty alias group named by the rest of the line, right-stripped, and makes it current; nothing else changes |
| MorphFiles.EndingLine | morph_database.py:141-143 | A `\t{lit,tag}` line appends one (literal, [stripped tag]) to the current group, with "_" read as the empty literal; KeyError exactly when no current group exists, IndexError exactly when the line has fewer than two fields |
| MorphFiles.ParadigmNameLine | morph_database.py:144-146 | A `+` line opens an empty paradigm and makes it current; the groups are unchanged |
| MorphFiles.HeadLine | morph_database.py:147-149 | A `\t<` line maps the head with `<` and `>` stripped to its aliases in the current paradigm; KeyError exactly when no current paradigm exists, IndexError exactly when the line has no fields; other paradigms unchanged |
| MorphFiles.OtherLine | morph_database.py:136-149 | Any other line leaves the reader's state as it was |
| MorphFiles.HeadAliases | morph_database.py:149 | The aliases are the fields after the head, each with trailing commas stripped |
| MorphFiles.ReadParadigms | morph_database.py:130-151 | The loop returns the two tables the line fold builds, or the first line's exception |
| MorphFiles.ReadLinesErrSticks | morph_database.py:136-149 | Once a line raises, later lines do not matter |
| MorphFiles.ReadLinesDistinct | morph_database.py:132-149 | Both tables hold each paradigm and alias group once, as Python dicts do |
| MorphFiles.ParadigmLineDistinct | morph_database.py:136-149 | One line keeps both tables free of repeated keys |
| MorphFiles.DicLineKind | morph_database.py:121-124 | After repair, a dictionary line is skipped exactly when it starts with a space or `\|` or is blank; any other line is malformed (IndexError) exactly when its part before the first `\|` has no `:` |
| MorphFiles.DicLineEntry | morph_database.py:124-125 | An entry's headword is the line's text before its first `:`, with no `:` or `\|` in it. Its paradigm field is the text after that `:` up to the next `:` or `\|` or the end of the line. The stored paradigm is that field with only its trailing `!`, `%` and newline characters removed |
| MorphFiles.ParseDic | morph_database.py:120-125 | Each dictionary line is classified on its own |
| MorphFiles.ReadDicLine | morph_database.py:120-125 | The loop body's reading of one line yields exactly what `DicLineKind` and `DicLineEntry` say of that line |
| MorphFiles.Vocabulary | morph_database.py:116-127 | The read loop computes the vocabulary fold over the classified lines |
| MorphFiles.VocabFoldErrSticks | morph_database.py:120-125 | Once a line is malformed, later lines do not matter |
| MorphFiles.VocabularyErrors | morph_database.py:116-127 | Reading fails exactly when some line is malformed, and then with IndexError |
| MorphFiles.VocabularyLookup | morph_database.py:116-127 | Each headword maps to the paradigm of its last entry line (a later duplicate overwrites), and is stored once |
| MorphFiles.FormalTags | morph_database.py:106-108 | Without `only_formal` the tags are kept as they are; with it, no kept tag contains "wH" |
| MorphFiles.FormalPositions | morph_database.py:106-107 | The positions of the tags without "wH": strictly increasing, in range, and every such position occurs |
| MorphFiles.FormalTagsExact | morph_database.py:106-107 | With `only_formal`, the kept tags are the tags at the formal positions, one for one and in order: exactly the tags without "wH", in order |
| MorphFiles.FormalTagsMembers | morph_database.py:106-107 | With `only_formal`, a tag is kept if and only if it is among the tags and does not contain "wH" |
| MorphFiles.EndingContribsKept | morph_database.py:105-110 | Every (affix, tags) pair a head gets from one alias group has non-empty tags, formal ones with `only_formal` |
| MorphFiles.EndingContribsSound | morph_database.py:105-110 | Every pair a head gets from a group is (head + literal, kept tags) of one of the group's endings |
| MorphFiles.EndingContribsComplete | morph_database.py:105-110 | Every ending whose kept tags are non-empty gives the head its pair |
| MorphFiles.EndingContribsExact | morph_database.py:105-110 | Both directions together: a head's pairs from one group are exactly those of its endings with non-empty kept tags |
| MorphFiles.AliasContribsKept | morph_database.py:104-110 | The pairs a head gets through its aliases keep non-empty (and, when asked, formal) tags |
| MorphFiles.AliasContribsSound | morph_database.py:104-110 | Each such pair comes from one of the head's aliases |
| MorphFiles.AliasContribsComplete | morph_database.py:104-110 | Each pair some alias gives with non-empty tags is among them |
| MorphFiles.AliasContribsExact | morph_database.py:104-110 | Both directions for a head's alias list |
| MorphFiles.FormContribsKept | morph_database.py:103-110 | A paradigm's pairs keep non-empty (and, when asked, formal) tags |
| MorphFiles.FormContribsSound | morph_database.py:103-110 | Each pair of a paradigm comes from one head and one of its aliases |
| MorphFiles.FormContribsComplete | morph_database.py:103-110 | Each pair a head gets from an alias with non-empty tags is among the paradigm's pairs |
| MorphFiles.FormContribsExact | morph_database.py:103-110 | Both directions for all heads of a paradigm |
| MorphFiles.AccumulateContents | morph_database.py:109-112 | The affix table holds exactly the contributed affixes, once each, and each affix's tag list is the in-order concatenation of all tags contributed under it |
| MorphFiles.TagsForFacts | morph_database.py:106-112 | The tags gathered under a contributed affix are non-empty, and formal with `only_formal` |
| MorphFiles.AffixTableKeys | morph_database.py:100-112 | A paradigm's affix keys, once each, are exactly the head + literal strings some head gets through some alias with non-empty kept tags |
| MorphFiles.AffixTableTags | morph_database.py:100-112 | Each key's tags are all tags contributed under it, in order; never empty; with `only_formal` none contains "wH" |
| MorphFiles.AsWrittenKeepsLast | morph_database.py:111-112 | The accumulation as written keeps, for each affix, only the tags of the last pair contributed under it |
| MorphFiles.RepeatedAffixLosesTags | morph_database.py:111-112 | Two endings with the same literal under one head (a nominative and an accusative with the same form) give, as written, only the second tag; the corrected table keeps both, in order |
| MorphFiles.TwoPairsSameKey | morph_database.py:111-112 | Two pairs under one key: as written the second replaces the first, corrected the tags concatenate |
| MorphFiles.TranslateAllKeys | morph_database.py:100-102 | The translated database holds the same paradigms in the same order |
| MorphFiles.TranslateAllGet | morph_database.py:100-112 | Each paradigm gets the affix table built from its own heads |
| MorphFiles.TranslateAllContents | morph_database.py:96-113 | Both facts together |
| MorphFiles.ParadigmDb | morph_database.py:96-113 | The loops fail exactly when some head names an alias group the file does not define (KeyError at `affixes[alias]`); otherwise they build the translated database |
| MorphFiles.CrossForms | morph_database.py:103-112 | The loop for one paradigm: none exactly when an alias is undefined, else its affix table |
| MorphFiles.CrossHead | morph_database.py:104-112 | One head crossed with its aliases extends the accumulated table by that head's pairs, or fails exactly on an undefined alias |
| MorphFiles.CrossEndings | morph_database.py:105-112 | One head crossed with a group's endings extends the accumulated table by those pairs |
| MorphFiles.CrossEndingStep | morph_database.py:106-112 | One ending's loop step (skip on empty tags, else extend the key's list) is one more accumulated pair |
| SortedLists.Gt | compare_segmenters.py:21-27 | `a > b` (defined as not `a <= b`) holds exactly when a's count is higher, or the counts are equal and a's name is strictly shorter |
| SortedLists.GtStrict | compare_segmenters.py:21-27 | `>` is irreflexive, transitive and asymmetric |
| SortedLists.ScanLeft | compare_segmenters.py:69-77 | A cell the left walk finds is in the list and greater than the new entry |
| SortedLists.ScanRight | compare_segmenters.py:84-88 | A cell the right walk finds carries the name sought |
| SortedLists.AddSpec | compare_segmenters.py:57-80 | `add` keeps every link inside the list's cells, grows the cells by the new one and the length by exactly 1 |
| SortedLists.Unlink | compare_segmenters.py:90-93 | Unlinking a cell from its neighbours keeps every link inside the cells |
| SortedLists.Relink | compare_segmenters.py:97-100 | Re-linking a cell after another keeps every link inside the cells |
| SortedLists.ToHead | compare_segmenters.py:103-107 | Moving a cell to the head keeps the length and `last` |
| SortedLists.IncreaseSpec | compare_segmenters.py:82-108 | `increase_value` never changes the length or `last` (the tail is never updated when it moves) |
| SortedLists.PopSpec | compare_segmenters.py:110-119 | `pop` never changes a cell or a link |
| SortedLists.SortedList.constructor | compare_segmenters.py:32-35 | A new list has no cells, no `first`, no `last` and length 0 |
| SortedLists.SortedList.Find | compare_segmenters.py:37-41 | The membership walk from the head is the right scan for the name |
| SortedLists.SortedList.FindGreater | compare_segmenters.py:69-77 | The loop walking left (in `add`, and again in `increase_value`) is the left scan for a greater cell |
| SortedLists.SortedList.Add | compare_segmenters.py:57-80 | The in-place `add` leaves the list in the state `AddSpec` describes |
| SortedLists.SortedList.IncreaseValue | compare_segmenters.py:82-108 | The in-place `increase_value` leaves the list in the state `IncreaseSpec` describes, crash included |
| SortedLists.SortedList.BumpAndUnlink | compare_segmenters.py:89-93 | Raises the count by one and unlinks the cell; `first`, `last` and the length stay |
| SortedLists.SortedList.RelinkAfter | compare_segmenters.py:97-100 | Links the cell after the greater one found, or fails on its missing right neighbour |
| SortedLists.SortedList.MoveToHead | compare_segmenters.py:103-107 | Makes the cell the head unless it is already |
| SortedLists.SortedList.Pop | compare_segmenters.py:110-119 | The in-place `pop` leaves the list in the state `PopSpec` describes |
| SortedLists.SortedList.FirstN | compare_segmenters.py:121-128 | The loop collects the names of the first min(length, n) cells along right links |
| SortedLists.SortedList.Names | compare_segmenters.py:37-41 | Iteration yields the names from the head along right links |
| SortedListProofs.InsertAt | compare_segmenters.py:64-80 | The insertion point: the entry before it (if any) is greater than the new one, none after it is |
| SortedListProofs.InsertAtSorted | compare_segmenters.py:64-80 | In a sorted list every entry before the insertion point is greater: the greater entries form a prefix |
| SortedListProofs.InsertKeepsSorted | compare_segmenters.py:57-80 | Inserting at the insertion point keeps a sorted list sorted |
| SortedListProofs.ScanLeftChain | compare_segmenters.py:69-77 | Walking left from the k-th cell finds the cell just before the insertion point among the first k + 1 entries, none when that point is the head |
| SortedListProofs.ScanRightChain | compare_segmenters.py:84-88 | Walking right finds the first cell with the name, none when there is none |
| SortedListProofs.AddProper | compare_segmenters.py:57-80 | On a well-formed list `add` succeeds and splices the new cell in right after the nearest greater entry counted from the tail, or at the head; the list stays well formed with length + 1, and stays sorted when it was |
| SortedListProofs.IncreaseFinds | compare_segmenters.py:84-88 | The search from the head stops at the first cell with the name |
| SortedListProofs.IncreaseAbsent | compare_segmenters.py:84-88 | `increase_value` of an absent name changes nothing |
| SortedListProofs.IncreaseAtHead | compare_segmenters.py:89-108 | `increase_value` of the head's name raises the head's count by 1 and moves nothing |
| SortedListProofs.IncreaseRelinked | compare_segmenters.py:89-101 | When a greater cell is found to the left (and the tail case below does not apply), the raised cell moves to its insertion point among the cells before it; the count is raised by exactly 1 and no other entry changes |
| SortedListProofs.IncreaseToHead | compare_segmenters.py:89-107 | When no cell to the left is greater, the raised cell becomes the head |
| SortedListProofs.IncreaseTailCrash | compare_segmenters.py:90-101 | Raising the tail when its left neighbour stays greater fails: that neighbour has just lost its right link and `new_left.right.left` is read on None |
| SortedListProofs.IncreaseLastStale | compare_segmenters.py:90-107 | After a move, the list is well formed exactly when the moved cell was not the tail (or stayed last): `last` is never updated |
| SortedListProofs.BumpHeadKeepsSorted | compare_segmenters.py:89-108 | Raising the head's count keeps the list sorted |
| SortedListProofs.MoveUpKeepsSorted | compare_segmenters.py:89-107 | Raising an entry and moving it to its insertion point among the entries before it keeps the list sorted |
| SortedListProofs.PopProper | compare_segmenters.py:110-119 | `pop` keeps every cell and link; empty: nothing; one cell: length 0, `last` cleared, `first` kept; two: both ends cleared while length says 1; more: `last` moves left and the old tail keeps its link to it |
| SortedListProofs.FirstNProper | compare_segmenters.py:121-128 | `first_n(n)` is the set of names of the first min(length, n) entries, empty when n ≤ 0 |
| SortedListProofs.IterProper | compare_segmenters.py:37-41 | Iterating a well-formed list gives its entries' names head to tail |
| SortedListProofs.FindProper | compare_segmenters.py:37-41 | `suffix in cache` holds exactly when some entry has the name |
| CompareSegmenters.Suffixes | compare_segmenters.py:167-168 | A lemma gives one suffix per starting index, longest first; each is non-empty and ends the lemma |
| CompareSegmenters.AllSuffixesCount | compare_segmenters.py:166-168 | The cache sees as many suffixes as the lemmas have characters, none empty |
| CompareSegmenters.CacheStep | compare_segmenters.py:169-175 | One suffix through the cache keeps its links inside its cells |
| CompareSegmenters.CacheAll | compare_segmenters.py:166-175 | So does any run of suffixes |
| CompareSegmenters.CacheAllSticks | compare_segmenters.py:166-175 | A failure (a crash inside `increase_value`) ends the run: later suffixes change nothing |
| CompareSegmenters.CacheAllStopsAt | compare_segmenters.py:166-175 | A failure part-way through decides the whole run |
| CompareSegmenters.CacheAllAppend | compare_segmenters.py:166-175 | Running over two stretches of suffixes is running over the first, then, if it succeeded, over the second |
| CompareSegmenters.CacheLengthBound | compare_segmenters.py:169-175 | The cache never holds more than 100 · size suffixes (one, when that is not positive): a new suffix is added only below capacity or right after a `pop` |
| CompareSegmenters.Feed | compare_segmenters.py:169-175 | One pass of the inner loop on the in-place cache is one `CacheStep` |
| CompareSegmenters.FeedAll | compare_segmenters.py:168-175 | The inner loop over one lemma's suffixes is the run over them, stopping at a failure |
| CompareSegmenters.MostCommonSuffixes | compare_segmenters.py:161-176 | Feeds every suffix of every line's lemma (text before the first ":") to a fresh cache and returns its first `size` names, or how the run failed |
| CompareSegmenters.HitFirst | compare_segmenters.py:205-208 | For a non-negative `top_n`, an entry is correct exactly when its paradigm is one of the first `top_n` guesses (all of them when there are fewer) |
| CompareSegmenters.EntryScore | compare_segmenters.py:202-208 | Each entry adds 0 or 1 to the correct count; it fails when its first line has no second ":" field |
| CompareSegmenters.Shifted | compare_segmenters.py:202-208 | Adding one entry's counts keeps correct ≤ entries |
| CompareSegmenters.EvalBounds | compare_segmenters.py:196-210 | `evaluate` never counts more correct entries than entries |
| CompareSegmenters.EvaluateWith | compare_segmenters.py:198-210 | The read loop over two lines per entry computes the recursive count, for any per-entry scoring |
| CompareSegmenters.Evaluate | compare_segmenters.py:196-210 | `evaluate` returns (correct, entries) of the log, or the IndexError a malformed paradigm line raises |
| CompareSegmenters.WeightedBy | compare_segmenters.py:185-186 | Every paradigm frequency is multiplied by n, keys and order kept |
| CompareSegmenters.Weighted | compare_segmenters.py:184-186 | Every suffix's frequencies are multiplied by the suffix's length |
| CompareSegmenters.WeightedGet | compare_segmenters.py:184-186 | Weighting keeps every suffix and paradigm key and stores freq · len(suffix) under them |
| CompareSegmenters.WeightFreqs | compare_segmenters.py:185-186 | The in-place inner loop yields the weighted frequencies |
| CompareSegmenters.WeightScores | compare_segmenters.py:184-186 | The in-place outer loop yields the weighted score table |
| DbStats.UntilBlank | db_stats.py:17-23 | The lines read are those before the first one that is empty after `strip()` |
| DbStats.UntilBlankAt | db_stats.py:19-23 | A blank line is where reading stops, whatever follows it |
| DbStats.ReadFeature | db_stats.py:18-21 | One loop pass: whether the stripped line ends the file, and what it yields (field 1 for lemmas, 0 for words, of a line with exactly three tab fields) |
| DbStats.FeaturesNext | db_stats.py:20-21 | Reading one more line appends what it yields |
| DbStats.CorpusGenerator | db_stats.py:14-24 | The read loop yields the features of the lines before the first blank one |
| DbStats.FeaturesMembers | db_stats.py:20-21 | A feature is yielded exactly when some line read carries it |
| DbStats.CorpusStopsAtBlank | db_stats.py:19 | Lines after a blank one are never read, not only at end of file |
| DbStats.ParseInt | db_stats.py:59 | `int()` of a token succeeds exactly when, after an optional sign, it is one or more digits, and raises ValueError otherwise; the value's sign follows the token's |
| DbStats.ParseDecimal | db_stats.py:59 | `int()` reads back every decimal rendering: `int(str(n)) == n`, `int("+" + str(n)) == n` and `int("-" + str(n)) == -n` |
| DbStats.ReadRow | db_stats.py:54-59 | One line: no row when it has fewer than two fields, else its word and parsed frequency, or ValueError |
| DbStats.FreqlistRows | db_stats.py:48-60 | The row loop computes the rows kept: stop once `limit` rows are collected, skip short rows, keep the first two fields |
| DbStats.ErrorsStick | db_stats.py:53-59 | A frequency that does not parse ends the loop with its error |
| DbStats.StoppedRows | db_stats.py:55-56 | Once `limit` rows are kept, later lines change nothing |
| DbStats.FreqRowsLimit | db_stats.py:48-60 | A non-negative limit keeps exactly the first `limit` rows that -1 (unlimited) keeps |
| DbStats.StepLimit | db_stats.py:55-59 | One row through the loop, with and without a limit |
| DbStats.Known | db_stats.py:64 | The known rows are exactly the frame's rows with a non-empty paradigm |
| DbStats.EndingWith | db_stats.py:67 | The narrowed rows are exactly the rows whose lemma ends with the suffix |
| DbStats.RaiseGroups | db_stats.py:70-71 | The group loop raises each paradigm's score to len(suffix) · its count when higher |
| DbStats.LemmaScores | db_stats.py:63-72 | The loop narrows the known rows cumulatively suffix by suffix, returning as soon as they run out |
| DbStats.ScoreIsBest | db_stats.py:66-72 | Each score is the maximum over processed suffixes of len(suffix) · count in the cumulative narrowing: returning early on an empty narrowing loses nothing |
| DbStats.BestOfNothing | db_stats.py:68-69 | An empty narrowing contributes nothing to any score |
| DbStats.LemmaScoresMeaning | db_stats.py:63-72 | The scored paradigms are exactly the known paradigms of rows whose lemma ends with the first segment; each score is the best product over all segments |
| DbStats.ScoreKeysNarrow | db_stats.py:66-71 | Scores only go to paradigms of the narrowed rows |
| DbStats.ScoreKeysGrow | db_stats.py:70-71 | A paradigm once scored stays scored |
| DbStats.RaiseNeverLowers | db_stats.py:71 | A paradigm's score never decreases from one suffix to the next |
| DbStats.CountedIsPresent | db_stats.py:70 | A paradigm with a positive count is one of the groups |
| DbStats.OccurringForms | db_stats.py:80-86 | The forms found are exactly the input forms that are some row's word, a subset of the input |
| DbStats.WordSimilarity | db_stats.py:104-111 | The loops compute the length of the longest substring of `word` occurring in `other` |
| DbStats.SimilarityBound | db_stats.py:104-111 | The similarity is at most the other word's length |
| DbStats.SimilarityToSelf | db_stats.py:104-111 | A word's similarity with itself is its length |
| DbStats.SimilarityUnique | db_stats.py:104-111 | The longest common length is unique |
| DbStats.SimilarityOfEmpty | db_stats.py:107 | An empty word has similarity 0 |
| GroupWordForms.SplitByTwo | group_word_forms.py:76-80 | `len(tag) // 2` chunks, chunk i being `tag[2i:2i+2]`; joined they give the tag without an odd last character |
| GroupWordForms.Chunks | group_word_forms.py:76-80 | The same chunks as a function, each of length 2 |
| GroupWordForms.AllHaving | group_word_forms.py:66-70 | The early-exit inner loop answers whether every remaining key contains the chunk |
| GroupWordForms.CommonChunksMembers | group_word_forms.py:65-72 | A chunk is kept exactly when it is a chunk of the sample and every remaining key contains it |
| GroupWordForms.CommonChunksOfNone | group_word_forms.py:64-72 | With a single entry, all of its key's chunks are kept |
| GroupWordForms.Common | group_word_forms.py:62-73 | Each common chunk has two characters |
| GroupWordForms.ExtractCommonTags | group_word_forms.py:62-73 | Pops exactly the last inserted entry (KeyError on an empty map, which stays empty) and returns, in order, the chunks of its key that every remaining key contains |
| GroupWordForms.StripTag | group_word_forms.py:56-57 | Each common chunk in turn is removed from the tag everywhere |
| GroupWordForms.CompressedGet | group_word_forms.py:54-58 | In the compressed map a key holds the count of the last tag that strips to it (a later tag overwrites); the joined common chunks hold -1 unless a tag strips to them; nothing else is a key |
| GroupWordForms.CompressTags | group_word_forms.py:51-59 | `compress_tags` computes the compressed map from a copy, KeyError for an empty map; its argument is a value and is not changed |
| GroupWordForms.AddedTagsGet | group_word_forms.py:92-96 | Merging one form's tags: a tag of `target` gets source's count (if any) plus target's, every other tag keeps source's |
| GroupWordForms.AddedFormsGet | group_word_forms.py:88-96 | Merging one lemma's forms: a word only in `target` takes target's tags as they are, a word in both gets its tags merged, others keep source's |
| GroupWordForms.AddedDbGet | group_word_forms.py:84-96 | Merging databases: a lemma only in `target` takes target's forms as they are, a lemma in both gets its forms merged, others keep source's |
| GroupWordForms.AddedFormsCounts | group_word_forms.py:88-96 | The same for one lemma, stated on (word, tag) counts |
| GroupWordForms.AddMorphDbCounts | group_word_forms.py:83-96 | Afterwards every triple of `target` counts its old count in `source` (0 when absent) plus its count in `target`; every triple `target` lacks is as in `source` |
| GroupWordForms.AddTags | group_word_forms.py:92-96 | The tag loop computes the merged tags |
| GroupWordForms.AddForms | group_word_forms.py:88-96 | The word loop computes the merged forms |
| GroupWordForms.AddMorphDb | group_word_forms.py:83-96 | The lemma loop computes the merged database |
| GroupWordForms.ReadEntry | group_word_forms.py:10-17 | One line: skipped with fewer than three tab fields (after removing trailing newlines) or lemma "#num#"; IndexError for an empty lemma; the word lower-cased when the lemma starts lowercase |
| GroupWordForms.CountEntry | group_word_forms.py:18-22 | The counting statements: missing levels default to empty, a new tag to 0, then +1 |
| GroupWordForms.BumpCount | group_word_forms.py:18-22 | Counting an entry adds exactly 1 to its own (lemma, word, tag) count and changes no other count |
| GroupWordForms.FormBump | group_word_forms.py:19-22 | Within one lemma only the counted (word, tag) pair grows, by 1 |
| GroupWordForms.BumpWellFormed | group_word_forms.py:18-22 | Counting keeps every level's dictionary free of repeated keys |
| GroupWordForms.ReadCorpora | group_word_forms.py:7-23 | The read loop computes the line fold, or the first IndexError |
| GroupWordForms.ReadAllCounts | group_word_forms.py:7-23 | `read_corpora` counts, for each triple, exactly the accepted lines that name it; each key occurs once at every level |
| GroupWordForms.ReadFailsOn | group_word_forms.py:9-22 | Once reading raised, later lines do not change the outcome |
| GroupWordForms.BucketMeaning | group_word_forms.py:43-46 | A count c ≥ 1 goes to one bucket ≤ 19: bucket 0 exactly when c ≥ 2^19, bucket b > 0 when 2^(19-b) ≤ c < 2^(20-b), that is 19 − min(19, ⌊log₂ c⌋) |
| GroupWordForms.BucketAt | group_word_forms.py:43-46 | The first power of two from 2^19 down that c reaches picks bucket 19 − i |
| GroupWordForms.BucketOf | group_word_forms.py:43-46 | The downward loop with `break` computes the bucket |
| GroupWordForms.FormSums | group_word_forms.py:37-39 | One summed count per form |
| GroupWordForms.TallyOne | group_word_forms.py:38-46 | Tallying a non-negative count adds one form to the total and one to unseen or to exactly one bucket |
| GroupWordForms.StatsAddUp | group_word_forms.py:34-46 | With no negative count, the twenty buckets plus unseen add up to the total |
| GroupWordForms.FormCountsLength | group_word_forms.py:36-38 | There is one summed count per (lemma, form) pair |
| GroupWordForms.DbStatsAddUp | group_word_forms.py:33-46 | `db_stats` counts every (lemma, form) pair once; with no negative summed count unseen + Σ freqs = total |
| GroupWordForms.TallyForms | group_word_forms.py:37-46 | The loop over one lemma's forms tallies into the 20-slot array in place |
| GroupWordForms.DbStats | group_word_forms.py:33-46 | `db_stats` computes the tally of every form's summed count |
| EvalLogs.FirstIndex | eval_logs.py:19-20 | The first index of an element, or the length when absent |
| EvalLogs.RemoveFirstDrops | eval_logs.py:19-20 | Only the first "" guess is removed, and nothing when there is none |
| EvalLogs.GuessesOf | eval_logs.py:18-21 | An entry always has at least one guess: exactly one padding element of max(top_n − len, 0) underscores is appended |
| EvalLogs.GuessCountOfEntry | eval_logs.py:16-22 | Each entry counts once and adds its guesses after removing the first "", plus the padding element, to `guess_count` |
| EvalLogs.PrefixGrows | eval_logs.py:23-26 | A guess in the first m guesses is in the first n for n ≥ m |
| EvalLogs.EntryHits | eval_logs.py:23-26 | One entry adds 1 to counter i exactly when the paradigm is among its first i + 1 guesses; `top_n` counters (none when not positive) |
| EvalLogs.EntryHitsMonotone | eval_logs.py:23-26 | One entry's increments are 0 or 1 and never less at a larger i, which is why the downward loop may stop at the first miss |
| EvalLogs.Zeros | eval_logs.py:11 | `top_n` counters (none when not positive), all 0 |
| EvalLogs.AddSeq | eval_logs.py:26 | Counters add pointwise |
| EvalLogs.EntryStats | eval_logs.py:16-26 | One entry contributes `top_n` counters |
| EvalLogs.EntryStatsMonotone | eval_logs.py:16-26 | One entry counts itself once, its counters 0 or 1 and non-decreasing in i |
| EvalLogs.TopNWith | eval_logs.py:11-27 | The counters of the log from a line on, for any per-entry counting, always number `top_n` |
| EvalLogs.TopNStep | eval_logs.py:14-27 | Each entry consumes exactly two lines (paradigm line, guess line) and adds its counts to those of the rest of the log |
| EvalLogs.CountersMonotone | eval_logs.py:11-27 | For i ≤ j: 0 ≤ correct[i] ≤ correct[j] ≤ entries |
| EvalLogs.CountersMonotoneWith | eval_logs.py:11-27 | The same for any per-entry counting whose entries count once with 0/1, non-decreasing counters |
| EvalLogs.ReadEntry | eval_logs.py:17-21 | The paradigm is the last ":" field of the stripped line; the guesses are its ", " fields, first "" removed, then padded |
| EvalLogs.CountHits | eval_logs.py:23-26 | The downward loop with `break` adds exactly the entry's hits to the counters array |
| EvalLogs.AddEntry | eval_logs.py:16-26 | One pass of the read loop adds one entry's counters, entry and guesses |
| EvalLogs.TopNCheck | eval_logs.py:8-28 | `top_n_check` returns the counters, entries and guess count of the whole log |
| CorpusStats.ValueAfter | corpus_stats.py:19 | `tag[tag.index(attr) + 1]` succeeds exactly when the index `tag.index(attr) + 1` lies inside the tag; the value is the one character at that index, which for a one-letter `attr` is the character right after its first occurrence |
| CorpusStats.LineValues | corpus_stats.py:10-20 | Each line's contribution is computed on its own, in order |
| CorpusStats.ReadValue | corpus_stats.py:11-19 | One line: skipped when it starts with "<", has other than three tab fields or its tag lacks `subcategory`; nothing counted when the tag lacks `attr`; else the value after `attr`, or IndexError |
| CorpusStats.AttributeStat | corpus_stats.py:6-22 | The loop builds the counter the fold describes, or raises the first error |
| CorpusStats.CountErrorSticks | corpus_stats.py:10-20 | Once a line raises, the whole corpus raises that error |
| CorpusStats.AttrStatsFails | corpus_stats.py:10-20 | `attribute_stat` raises exactly when some line raises |
| CorpusStats.AttrStatsCounts | corpus_stats.py:18-20 | Each counted value maps to the number of lines that count it; a value no line counts is absent |
| CorpusStats.AttrStatsTotal | corpus_stats.py:18-20 | Each value is stored once and the counts add up to the number of counted lines |
| CorpusStats.SkippedLine | corpus_stats.py:11-17 | A structure line, a line without exactly three fields, or a tag lacking `subcategory` leaves the counter unchanged |
| CorpusStats.PathKeysWalk | corpus_stats.py:40-45 | The walk visits the attributes in order, key attr + value for each, at most one per attribute, and stops at the first attribute absent from the tag |
| CorpusStats.PathKeysFails | corpus_stats.py:40-43 | The walk raises exactly when it reaches an attribute whose first occurrence ends the tag |
| CorpusStats.PathKeysStep | corpus_stats.py:40-49 | One attribute of the walk, then the rest |
| CorpusStats.WalkKeys | corpus_stats.py:39-49 | The inner loop with `break` computes the keys the walk visits |
| CorpusStats.ReadKeys | corpus_stats.py:32-38 | One line: skipped when it starts with "<", has other than three tab fields or its tag misses a constraint; else its walk |
| CorpusStats.AllKeys | corpus_stats.py:31-49 | Each line's walk is computed on its own, in order |
| CorpusStats.StatTree | corpus_stats.py:25-51 | `stat_tree` builds the tree from the lines' walks (the empty tree when `attrs` is empty), or raises the first error |
| CorpusStats.InsertSum | corpus_stats.py:44-46 | A walk that visits a node adds one to the top layer's sum |
| CorpusStats.InsertValid | corpus_stats.py:39-49 | A walk no longer than the depth keeps the tree well formed: keys once per layer, every node counted at least once and at least as often as its children together |
| CorpusStats.InsertCountAt | corpus_stats.py:44-46 | A walk adds one to exactly the nodes along its keys and leaves every other count unchanged |
| CorpusStats.AllKeysBounded | corpus_stats.py:40 | No walk is longer than `attrs` |
| CorpusStats.StatTreeCounts | corpus_stats.py:31-49 | The tree is well formed, no deeper than `attrs` allows, its top layer sums to the number of lines that visit a node, and each node's count is the number of lines walking through it |
| CorpusStats.ConstraintMissing | corpus_stats.py:37-38 | A line whose tag misses a constraint leaves the tree unchanged |
| VertToPrevert.DropBeforeClosersCleans | desam/vert_to_prevert.py:18 | On text without two whitespace characters in a row, the first rewrite leaves no whitespace before any of `. , ; ? ! )`, keeps the text single-spaced, and removes nothing but whitespace |
| VertToPrevert.DropAfterParenCleans | desam/vert_to_prevert.py:19 | The second rewrite leaves no whitespace after "(", brings none before a closer, and removes nothing but whitespace |
| VertToPrevert.CleanSentence | desam/vert_to_prevert.py:18-19 | On single-spaced text the two rewrites together leave no whitespace before a closer and none after "(", and keep every other character in order |
| VertToPrevert.ClosingLine | desam/vert_to_prevert.py:16-17 | A line starting "</" is a closing tag |
| VertToPrevert.OpeningTag | desam/vert_to_prevert.py:23-24 | Another "<" line is written as its first token, which `lstrip(">")` cannot change since it starts with "<" |
| VertToPrevert.WordLine | desam/vert_to_prevert.py:26-27 | A token line raises (IndexError on `split()[0]`) exactly when it is blank; otherwise its word is a non-empty run without whitespace |
| VertToPrevert.Kinds | desam/vert_to_prevert.py:15-27 | Each line is classified on its own |
| VertToPrevert.ReadKind | desam/vert_to_prevert.py:16-26 | The per-line parsing computes the line's kind |
| VertToPrevert.Feed | desam/vert_to_prevert.py:16-27 | One loop pass updates buffer and output as the step function says |
| VertToPrevert.Convert | desam/vert_to_prevert.py:15-28 | The loop over all lines computes the text written to the output file and the exception that stopped it, if any; the text written before the exception is kept |
| VertToPrevert.BlankLineKeepsWritten | desam/vert_to_prevert.py:26 | A blank token line raises IndexError, and the output file then holds exactly the text the lines before it wrote |
| VertToPrevert.RunErrorSticks | desam/vert_to_prevert.py:15-27 | Once a line raises, the script stops with that error |
| VertToPrevert.VertToPrevert | desam/vert_to_prevert.py:8-29 | Without an argument nothing is written; otherwise the output file "desam" + separator + "prevert_" + the path's part after its last backslash, holding the prevertical text written until the input ends or an exception stops the script, together with that exception |
| VertToPrevert.RunBuffer | desam/vert_to_prevert.py:22-27 | The buffer holds exactly the words read since the last closing tag, each after one space |
| VertToPrevert.SpacedSingle | desam/vert_to_prevert.py:27 | A buffer of tokens is single-spaced and does not end in whitespace |
| VertToPrevert.RunSingleSpaced | desam/vert_to_prevert.py:15-27 | The buffer is always single-spaced |
| VertToPrevert.PendingClean | desam/vert_to_prevert.py:18-19 | The cleaned buffer has no whitespace before a closer nor after "(", and keeps the pending words' characters in order |
| VertToPrevert.ClosingTag | desam/vert_to_prevert.py:17-22 | A closing tag writes the stripped, cleaned buffer as one line, then the tag line verbatim, and empties the buffer |
| VertToPrevert.WordsAloneWriteNothing | desam/vert_to_prevert.py:15-28 | Words buffered after the last tag line never reach the output |
| TrainTuneTest.RoutedPicks | desam/train_tune_test.py:19-27 | The j-th line written to a file is the input line at the j-th index routed there |
| TrainTuneTest.PickedExactly | desam/train_tune_test.py:20-26 | The indices routed to a file are exactly those whose route (tune iff i % 10 == 0, test iff i % 10 ∈ {1, 2}, train otherwise) is that file, each once, increasing: every line goes to exactly one file, in input order |
| TrainTuneTest.PartitionSizes | desam/train_tune_test.py:19-27 | The three files together have as many lines as the input |
| TrainTuneTest.TuneCount | desam/train_tune_test.py:21-22 | Of n lines the tune file gets ⌈n/10⌉ |
| TrainTuneTest.TrainTuneTest | desam/train_tune_test.py:9-30 | Without an argument the script fails on `args[0]` (after printing usage); otherwise the three files are named "train_", "tune_", "test_" + the last path component and hold the routed lines |
| Guesser.CandidatesAreSuffixes | guesser.py:11 | One candidate per segment; candidate k is the last k + 1 segments joined, so each ends the word; the first is the last segment, the last is the whole word; each next one is the previous with one more segment in front, so each ends the next |
| Guesser.ConcatSuffix | guesser.py:11 | The segments from any position on, joined, end the joined word |
| Guesser.CandidateStep | guesser.py:11 | Each next candidate has one more segment in front |
| Guesser.CandidateEnds | guesser.py:11 | Each candidate ends the word |

## Left out

- File opening, encodings, `print` output, argparse, timing, and the `datetime`-named result
  files. Input files are line sequences; an output file is returned as its text or its lines.
- `print_scores`, `tree_print`, `full_eval`, `classic_eval`, `md_eval` (eval_logs.py): printing
  and file-driving only. `md_check` calls `same_lemma` and a four-argument `same_paradigms`,
  and neither is defined in the source.
- `dic_file_all_forms` and the printing `MorphDatabase.same_paradigms` (morph_database.py:87-93).
  `write_morph_db` and every `main`, except the two `desam` loops modelled above.
- The frequency trie, `uppercase_format`, `tree_guess_paradigm_from_corpus`, and the new_dic.py
  script that uses them: none of these is defined in the source.
- `pandas_lemma_scores`, `paradigm_frequencies` and `guess_paradigm_from_lemma_seg` are not
  defined in the source. `Guesser` takes the scorer as a parameter. `CompareSegmenters.WeightFreqs`
  takes the frequencies as input.
- The external segmenters (sentencepiece, morfessor) behind `segmented_guess`, `baseline_guess`
  and `scores_of_most_common`; sentencepiece training; the network scraping of ijp_dump.py.
- `clean_freqlist` and `clean_dic_file`: they rely on Unicode regular-expression classes (`\w`).
- `SortedList.__getitem__` never advances its cursor and loops forever on a miss. `__str__`
  only formats.
- `word_scores` has no implementation in the source.
- `compress_word`, `MORPH_DATABASE` and the `main` of group_word_forms.py are not defined in
  the source.
- pandas data frames: `lemmas`, `words`, `words_to_dataframe`, `lemmas_to_dataframe` and
  `freqlist_to_dataframe` produce sequences of rows (lemma/paradigm or word/count records).
- MorphDb.MorphDatabase.FormSpread: a spread value is a `float`. The model keeps the token as written
  (`Parsed(token)`), with `Zero` for 0.0. It does not model the ValueError that `float()`
  raises on a malformed token, nor numeric equality between different spellings.
- Text.Strip, Text.Split, VertToPrevert.DropBeforeClosers, VertToPrevert.DropAfterParen: whitespace
  (for `str.split()`, `str.strip()` and the regular-expression class `\s`) is the ASCII set space, tab, LF, CR, VT and FF. Python
  also counts the Unicode separators (for example U+00A0 and U+2028) as whitespace.
- Text.Lower, Text.IsLower: case mapping covers ASCII and the fifteen accented letters of the
  Czech alphabet, not the full Unicode tables.
- DbStats.ParseInt: `int()` is modelled for an optional sign followed by ASCII digits (the token
  comes from a whitespace split, so it has no surrounding whitespace). Underscores between digits
  and non-ASCII digits are not accepted.
- Set iteration order is not modelled. Where the source iterates a set, the model states
  results as sets or for every order.
- `os.sep` is the parameter `sep` of `TrainTuneTest.TrainTuneTest`, `VertToPrevert.OutputName` and
  `VertToPrevert.VertToPrevert`.
- GroupWordForms.AddMorphDb, CorpusStats.StatTree, GroupWordForms.CompressTags: the nested
  dictionaries are values. AddMorphDb returns the merged database. The inner dictionaries that
  `add_morph_db` shares between source and target, and the aliasing they cause, are not modelled.
- MorphDb.MorphDatabase.constructor takes tables already read. `__init__`'s calls to
  `paradigm_suffixes`, `vocabulary` and `form_spread` are separate members composed by the caller.
- SortedLists.ScanLeft, SortedLists.ScanRight: a walk along the links visits at most as many
  cells as the arena holds. A walk that would go round a cycle forever ends as `Hang` instead.
  A cycle can arise only after the link defects of `pop`.
- Exceptions on paths the model reaches (KeyError, IndexError, AttributeError, ValueError) are
  results, and their messages are not modelled.

## Findings

| source | as written | input that shows it | evidently intended | confidence | as-written member | corrected member |
|---|---|---|---|---|---|---|
| morph_database.py:111 | the list to extend is looked up in the paradigm's outer record (`translated[paradigm].get(suffix, [])`). That record's only key is "affixes", so each (literal, tags) pair replaces the affix's tags instead of extending them | two endings with the same literal under one head, e.g. `{_,k1gInSc1}` and `{_,k1gInSc4}` under `hrad` | the tags accumulate in order (`translated[paradigm]["affixes"].get(suffix, [])`) | not executed | MorphFiles.AsWrittenKeepsLast | MorphFiles.AccumulateContents |

`MorphFiles.ParadigmDb` uses the corrected accumulation (`MorphFiles.Accumulate`).
`MorphFiles.RepeatedAffixLosesTags` proves, on the input above, that the code as written keeps
only the last tag.
