# PlacementNex core, modelled in Dafny

PlacementNex is a campus-placement analytics front end. Its core works on an
in-memory list of students (candidates) and companies (recruiting
organizations). This project models that core and proves what it computes:

- **Placement predictor** (`Predictor`): the rule-based decision tree that
  rates a student's chances High, Medium or Low.
- **Ranking heap** (`Ranking`): `StudentMaxHeap`, whose array the methods
  change in place. Insertion sifts up; the ranked list is a sorted copy.
- **Merge sort** (`MergeSort`): `mergeSortStudents`, recursion over halves
  with an imperative two-index `merge` loop. The comparison reads a missing
  value as 0.
- **Chat trie** (`ChatTrie`): a case-insensitive phrase-to-response table.
  The trie's nodes are a table of records that `insert` grows and updates.
- **Resume keyword check** (`Resume`): which required skills appear among
  a resume's words.
- **Skill gap analysis** (`SkillGap`, `Tally`): supply, demand and salary
  tallies built in key-insertion order. From them come the top-ten gap table
  and the top-five table of best-paid skills.
- **Recruitment queue and drive timeline** (`Queue`, `Timeline`): a FIFO
  queue class, and the round-by-round simulation that dequeues every entrant
  and re-enqueues those who pass. Companies are listed by arrival date.
- **Dashboard** (`Dashboard`):
  - the placed count
  - the branch-wise `reduce` into per-branch totals
  - the placed/unplaced pie
  - the highest package
- **Student directory** (`AllStudents`): a class whose fields are the
  component's state. It covers:
  - the column-sort direction toggle
  - the add and edit forms
  - parsing of the comma-separated skills field
- **Application shell** (`App`): adding a student to the shared list and
  replacing a student by id.

Shared modules:

- `Types`: the records.
- `Sequences`: the array `sort` by a numeric key, proved stable;
  `Distinct` (the key order of a JavaScript `Map` or `Set`); filter; take.
- `Text`: ASCII case mapping; `trim` with JavaScript's full set of white
  space and line terminators; `split` and `join`; string `<` in UTF-16
  code-unit order.

Numbers are exact: `cgpa` and `package` are `real`, and counts are `int` or
`nat`. An optional field is an `Option`. `s.package || 0` and `?? 0` read a
missing package as 0 (`PackageOr0`). The truthiness test `if (s.package)`
is `HasPackage`: the package is present and non-zero.

Four inputs of the original are parameters:

- `Math.random() < round.passRate` is a boolean oracle `passes(round, i)`
  for the `i`-th student dequeued in that round.
- `new Date(d).getTime()` is `timeOf(d)`.
- `Date.now().toString()` is the string `now`.
- The students a drive enqueues are the parameter `students` of
  `Timeline.RunSimulation`. The component enqueues the mock list `STUDENTS`
  (components/Timeline.tsx:28).

The empty form `emptyStudent` (components/AllStudents.tsx:12-22) is the
constant `AllStudents.EmptyStudent`; `OpenAddModal` states that the add
form starts from it.

## Notes on the code's behaviour

- **The merge sort is not stable.** The merge's condition is a strict `<`
  (or `>` when descending), so on equal keys it takes the right element
  first (utils/dsa.ts:113-122). `MergeSort.TiesAreSwapped` proves that two
  tied students come out swapped whichever order they go in, so sorting
  twice is not idempotent either.
- **Ranking ties keep their heap-array order.** `getRankedList` sorts a
  copy of the heap array with the stable array `sort` (utils/dsa.ts:79-82).
  Students of equal score therefore come out in their order in the heap
  array, which need not be their insertion order. `GetRankedList` states
  this.
- **A drive runs all of its rounds.** The round loop has no early exit
  (components/Timeline.tsx:42-72), so it keeps running rounds after the
  queue is empty. `Timeline.EmptyRoundStaysEmpty` shows that an empty round
  stays empty.
- **Skill supply counts occurrences, not students.** Every listed skill
  adds one (utils/dsa.ts:204-207), so a skill listed twice by one student
  counts twice (`SkillGap.SupplyCounts`).

## Model

| member | source | states |
|---|---|---|
| Predictor.PredictPlacementProbability | utils/dsa.ts:8-34 | High exactly when: grade ≥ 8.5 with 3 skills or 2 projects; or grade in [7, 8.5) with 4 skills and 2 projects. Low exactly when: grade in [7, 8.5) with fewer than 2 skills; or grade below 7 without 4 projects and 3 skills. A grade of 8.5 or more is never Low, and below 7 is never High. |
| Predictor.NotMonotoneInGrade | utils/dsa.ts:10-26 | A student with the higher grade can get the lower rating: (7.0, 4 skills, 2 projects) is High, (8.5, 2 skills, 1 project) is Medium |
| Ranking.StudentMaxHeap.constructor | utils/dsa.ts:44-46 | Inserting each student in turn gives a valid max-heap holding exactly those students |
| Ranking.StudentMaxHeap.Insert | utils/dsa.ts:61-64 | After `push` and `heapifyUp`, every parent scores at least its children, and the heap holds its old students plus the new one |
| Ranking.StudentMaxHeap.HeapifyUp | utils/dsa.ts:66-77 | Sifting the last element up, while its parent scores strictly less, restores the heap property without adding or losing a student |
| Ranking.StudentMaxHeap.Swap | utils/dsa.ts:57-59 | Exchanges the two slots and nothing else; a permutation of the heap |
| Ranking.StudentMaxHeap.GetRankedList | utils/dsa.ts:79-82 | A permutation of the heap array in non-increasing score order; students of equal score keep their heap-array order; the heap is left unchanged |
| Ranking.Score | utils/dsa.ts:48-51 | The weighted score; with no negative counts it is at least ten times the grade |
| Ranking.ScoreMonotone | utils/dsa.ts:48-51 | A student at least as strong on grade, skills, internships and projects scores at least as much; one more skill adds exactly 5 |
| Ranking.Parent | utils/dsa.ts:53 | `floor((i - 1) / 2)` is the index whose children `2p + 1` and `2p + 2` include `i`, and it lies before `i` |
| Ranking.MockScores | utils/dsa.ts:48-51 | The weighted score `cgpa*10 + skills*5 + internships*8 + projects*3` of the first two mock students is 140 and 114 |
| Ranking.RankMockPair | utils/dsa.ts:79-82 | Built from [Vihaan, Aarav], the ranking puts Aarav first |
| MergeSort.Merge | utils/dsa.ts:100-127 | The two-index loop, followed by concatenating the leftovers, yields the merge of the two halves |
| MergeSort.MergeFromLength | utils/dsa.ts:100-127 | The merge has as many elements as the two remaining halves |
| MergeSort.MergePermutes | utils/dsa.ts:100-127 | The merge is a permutation of the two remaining halves |
| MergeSort.MergeOrdered | utils/dsa.ts:100-127 | Merging two ordered halves under a strict weak order gives an ordered result |
| MergeSort.MergeSort | utils/dsa.ts:90-98 | The output has the input's length; an input of length 0 or 1 comes back as is |
| MergeSort.MergeSortPermutes | utils/dsa.ts:90-98 | The output is a permutation of the input |
| MergeSort.MergeSortOrdered | utils/dsa.ts:90-127 | Under a strict weak order, no later element goes strictly before an earlier one |
| MergeSort.MergeSortStudents | utils/dsa.ts:90-98 | The recursive method computes the merge sort |
| MergeSort.KeyLess | utils/dsa.ts:105-114 | `a[key] < b[key]`, with a missing package read as 0 and strings compared by `Text.LexLess` |
| MergeSort.Before | utils/dsa.ts:112-114 | The merge's condition: `lV < rV` ascending, `lV > rV` descending |
| MergeSort.KeyLessWeakOrder | utils/dsa.ts:106-114 | Comparing one field, with a missing value read as 0, is a strict weak order: irreflexive, asymmetric, and incomparability is transitive |
| MergeSort.ComparisonIsWeakOrder | utils/dsa.ts:113-115 | Both the ascending and the descending comparison are strict weak orders |
| MergeSort.SortStudents | utils/dsa.ts:90-127 | Sorting on any field in either direction gives a permutation ordered by that field |
| MergeSort.TiesAreSwapped | utils/dsa.ts:113-122 | Two students with equal keys are swapped whichever order they come in: the sort is not stable |
| ChatTrie.ChatTrie.constructor | utils/dsa.ts:140-141 | A trie holding only its root answers no phrase |
| ChatTrie.ChatTrie.Insert | utils/dsa.ts:143-153 | Afterwards the table maps the lower-case phrase to the response; every other phrase keeps its answer; the trie stays well formed |
| ChatTrie.ChatTrie.Grow | utils/dsa.ts:146-148 | Adds one new node under the current node for the character; stored phrases are unchanged |
| ChatTrie.ChatTrie.Search | utils/dsa.ts:155-163 | Returns the response stored for the lower-case phrase when it is non-empty. Otherwise nothing: no such phrase, a strict prefix, or a path that leaves the tree |
| ChatTrie.LookupAfterStore | utils/dsa.ts:151-161 | After storing `r` under `k`: a lookup of `k` gives `r`, or nothing when `r` is empty; other keys are unaffected |
| ChatTrie.AddChildValid | utils/dsa.ts:146-148 | Adding a child under a missing character keeps the trie well formed: paths distinct, edges spell paths, parent links, stored ends |
| ChatTrie.MarkEndValid | utils/dsa.ts:151-152 | Marking a node as a phrase end with a response keeps the trie well formed, with that path now stored |
| ChatTrie.LeavesTree | utils/dsa.ts:157-158 | A query whose walk meets a missing child is not a stored phrase |
| ChatTrie.GreetingScenario | components/Chatbot.tsx:25 | The chatbot's "hello" entry matches "hello" and "HELLO", and the prefix "hell" gets no answer |
| Resume.AnalyzeResumeKeywords | utils/dsa.ts:170-190 | Matched and missing skills are the required skills whose lower-case form is or is not among the words, in their order; the keyword count is the number of words |
| Resume.MatchPartitions | utils/dsa.ts:181-187 | Every required skill is either matched or missing, never both, and the two lists together are the required skills |
| SkillGap.UpperAll | utils/dsa.ts:206 | Each skill in upper case, position for position |
| SkillGap.TallyStudent | utils/dsa.ts:205-213 | One student's skills add one supply each, in upper case. When the package is truthy they also add the package to that skill's salary sum and one to its salary count. Map key order is first insertion. |
| SkillGap.TallySkillsTallied | utils/dsa.ts:205-213 | Tallying a run of skills extends supply, paid keys and salary sums by exactly that run |
| SkillGap.TallySkillTallied | utils/dsa.ts:207-211 | One skill's tally step keeps the count, sum and key-order invariants |
| SkillGap.TallySupply | utils/dsa.ts:204-214 | The supply counts, salary sums and salary counts equal the counts over all students' upper-cased skills, with keys in first-seen order |
| SkillGap.TallyDemand | utils/dsa.ts:217-222 | The demand counts equal the counts over all companies' upper-cased required skills, with keys in first-seen order |
| SkillGap.KeyStep | utils/dsa.ts:219-220 | One `set(sk, get(sk) + 1)` step extends both the counts and the insertion order by one key |
| SkillGap.GapRows | utils/dsa.ts:226-232 | One row per skill: demand and supply read with a missing count as 0, and gap = demand - supply |
| SkillGap.ValueRows | utils/dsa.ts:237-241 | One row per paid skill, its average package = salary sum / salary count |
| SkillGap.AnalyzeSkillGap | utils/dsa.ts:197-246 | The method's two results are the gap table and the high-value table |
| SkillGap.AllSkills | utils/dsa.ts:225 | The skills of students and companies together, each exactly once |
| SkillGap.GapTable | utils/dsa.ts:226-234 | At most 10 rows, in non-increasing demand |
| SkillGap.ValueTable | utils/dsa.ts:237-243 | At most 5 rows, in non-increasing average package |
| SkillGap.GapTableProperties | utils/dsa.ts:224-234 | At most 10 rows, in non-increasing demand. Each row: gap = demand - supply; demand and supply are the skill's occurrences among companies and students; the skill comes from one of them. |
| SkillGap.GapTableIsTopTen | utils/dsa.ts:233-234 | A skill left out of the table means the table is full, and every listed skill is demanded at least as often |
| SkillGap.GapTableNamesDistinct | utils/dsa.ts:225-234 | No skill has two rows in the gap table |
| SkillGap.GapRowMeaning | utils/dsa.ts:226-232 | A row's name is one of the skills; its counts are occurrences; gap = demand - supply |
| SkillGap.SupplyCounts | utils/dsa.ts:204-207 | A skill's supply is how often it occurs across all students' skill lists |
| SkillGap.SupplyKeysFrom | utils/dsa.ts:204-206 | Every supply key is the upper case of some student's skill |
| SkillGap.DemandKeysFrom | utils/dsa.ts:217-219 | Every demand key is the upper case of some company's required skill |
| SkillGap.SalarySumsKeys | utils/dsa.ts:209-210 | A skill has a salary sum exactly when some student with a truthy package lists it |
| SkillGap.SalaryFigures | utils/dsa.ts:209-212 | The salary sum and count of a skill are the total package and the number of its occurrences among students with a truthy package |
| SkillGap.PaidCountIsOccurrences | utils/dsa.ts:211 | The salary count is the number of occurrences among paid students' skills |
| SkillGap.ValueRowFigures | utils/dsa.ts:237-241 | Each high-value row's average is the paid total over a positive paid count |
| SkillGap.ValueTableProperties | utils/dsa.ts:236-243 | At most 5 rows, in non-increasing average package, each average a true average over a positive count |
| SkillGap.ValueTableNamesDistinct | utils/dsa.ts:237-243 | No skill has two rows in the value table |
| SkillGap.ValueTableIsTopFive | utils/dsa.ts:237-243 | A skill of a paid student left out of the table means the table is full, and every listed skill's average package is at least that skill's average |
| SkillGap.ZeroPackageExcluded | utils/dsa.ts:209 | A student with package 0 adds nothing to salary sums or counts |
| Tally.AddCountsCounts | utils/dsa.ts:207 | Counting keys into a map adds each key's number of occurrences; the keys present are the old ones plus those counted |
| Tally.AddWeightSums | utils/dsa.ts:210 | Adding a weight per key adds weight × occurrences to each key's sum |
| Queue.RecruitmentQueue.constructor | utils/dsa.ts:253-254 | A new queue is empty |
| Queue.RecruitmentQueue.Enqueue | utils/dsa.ts:256-258 | The item goes at the back |
| Queue.RecruitmentQueue.Dequeue | utils/dsa.ts:260-262 | On an empty queue, nothing, and the queue stays empty; otherwise the front item, which is removed |
| Queue.RecruitmentQueue.Size | utils/dsa.ts:264-266 | `size()` is the number of items `getItems()` returns |
| Queue.RecruitmentQueue.GetItems | utils/dsa.ts:268-270 | The queued items, front first |
| Queue.RecruitmentQueue.Clear | utils/dsa.ts:272-274 | The queue is empty afterwards |
| Queue.FifoOrder | utils/dsa.ts:253-262 | Enqueueing items and dequeueing as many gives them back in the same order |
| Timeline.DriveRounds | components/Timeline.tsx:33-38 | The drive's rounds are a prefix of the fixed four-round list |
| Timeline.Winners | components/Timeline.tsx:52-62 | The winners of a round are a subsequence of the students dequeued in it |
| Timeline.Stats | components/Timeline.tsx:42-70 | One entry per round run so far; entry j counts the students who entered round j and those who passed it |
| Timeline.DriveRoundsCount | components/Timeline.tsx:33-38 | A drive has min(rounds, 4) rounds, the first ones of the fixed list in order |
| Timeline.WinnersInOrder | components/Timeline.tsx:52-62 | The winners are exactly the entrants who pass, kept in dequeue order |
| Timeline.WinnersAtMost | components/Timeline.tsx:52-62 | No more students pass a round than enter it |
| Timeline.StatsProperties | components/Timeline.tsx:42-70 | One entry per round run, named after its round. The first round is entered by everyone; each later round by those who passed the one before; passes never exceed entrants. |
| Timeline.EmptyRoundStaysEmpty | components/Timeline.tsx:42-72 | Once a round has no survivors, neither has the next |
| Timeline.RunRound | components/Timeline.tsx:49-62 | Dequeues every student present at the round's start, leaves the queue empty, and returns the passing ones in order |
| Timeline.RunSimulation | components/Timeline.tsx:20-75 | Enqueueing all students and running each round yields the round statistics above |
| Timeline.SortedCompanies | components/Timeline.tsx:13 | The companies reordered by non-decreasing arrival time |
| Dashboard.PlacedCount | components/Dashboard.tsx:14 | The placed count is at most the number of students, and equals it exactly when everyone is placed |
| Dashboard.Branches | components/Dashboard.tsx:20-21 | Each student's branch, in list order |
| Dashboard.FindBranch | components/Dashboard.tsx:21 | `acc.find` by name: the first entry with the branch, or the end when there is none |
| Dashboard.Find | components/Dashboard.tsx:21 | The search loop finds that first entry |
| Dashboard.Reducer | components/Dashboard.tsx:20-28 | One reducer step: bump the branch's entry (its placed count too when placed), or append a new entry |
| Dashboard.Visit | components/Dashboard.tsx:20-28 | One reducer step keeps every entry's name and adds at most one entry. It adds one, a fresh count for the student's branch, exactly when no entry has that branch. |
| Dashboard.Reduce | components/Dashboard.tsx:20-29 | The reduce has no more entries than there are students |
| Dashboard.StudentVisited | components/Dashboard.tsx:22-27 | Appending a student adds one to its branch count, and to its placed count when placed |
| Dashboard.SumsAfterUpdate | components/Dashboard.tsx:23-24 | Replacing one entry changes the sums of totals and of placed by that entry's change |
| Dashboard.SumsAfterAppend | components/Dashboard.tsx:26 | Appending an entry adds its totals to the sums |
| Dashboard.CountAbsent | components/Dashboard.tsx:25-26 | A branch no student has has no students and none placed |
| Dashboard.VisitNames | components/Dashboard.tsx:20-28 | A reducer step keeps the entries named after the distinct branches in first-seen order |
| Dashboard.VisitCounts | components/Dashboard.tsx:20-28 | A reducer step keeps each entry's total and placed count equal to its branch's figures |
| Dashboard.VisitSums | components/Dashboard.tsx:20-28 | A reducer step keeps the sums equal to the student count and the placed count |
| Dashboard.ReduceStep | components/Dashboard.tsx:20-29 | The reduce over one more student is one more reducer step |
| Dashboard.ReduceNames | components/Dashboard.tsx:20-29 | The reduce yields one entry per distinct branch, in first-seen order |
| Dashboard.ReduceCounts | components/Dashboard.tsx:20-29 | Each entry's total and placed are its branch's student and placed counts |
| Dashboard.ReduceSums | components/Dashboard.tsx:20-29 | The totals add up to the number of students, and the placed figures to the placed count |
| Dashboard.PlacedInAtMost | components/Dashboard.tsx:24 | A branch never has more placed than students |
| Dashboard.BranchData | components/Dashboard.tsx:20-29 | One entry per distinct branch in first-seen order. Each entry holds its branch's student and placed counts, with placed ≤ total. Totals sum to the student count and placed figures to the placed count. |
| Dashboard.BranchNames | components/Dashboard.tsx:20-29 | A branch has an entry exactly when some student is in it, and no branch has two |
| Dashboard.PieData | components/Dashboard.tsx:31-34 | Two slices, "Placed" and "Unplaced", non-negative, summing to the number of students |
| Dashboard.MaxPackage | components/Dashboard.tsx:17 | `Math.max` of no values is minus infinity. Otherwise the result is one student's package (missing read as 0) and at least every student's. |
| AllStudents.NextDirection | components/AllStudents.tsx:40 | A new column starts ascending; a click on the current column flips its direction |
| AllStudents.Click | components/AllStudents.tsx:40-41 | The clicked column becomes the sort key, descending exactly when it was the ascending column before |
| AllStudents.RepeatedClicks | components/AllStudents.tsx:39-41 | Clicking one header n times sorts on it, alternating direction, with the parity set by whether it was already the ascending column |
| AllStudents.SameColumnTwice | components/AllStudents.tsx:40 | Two clicks on the ascending column bring it back to ascending |
| AllStudents.ParseSkills | components/AllStudents.tsx:63 | Every parsed skill is non-empty, trimmed and comma-free, and there are no more skills than comma-separated pieces |
| AllStudents.FilteredClean | components/AllStudents.tsx:63 | Non-blank trimmed pieces without commas are clean skills |
| AllStudents.TrimClean | components/AllStudents.tsx:63 | Trimming a comma-free piece that is not blank gives a clean skill |
| AllStudents.ParseSkillsKeepsOrder | components/AllStudents.tsx:63 | The parsed skills are trimmed pieces of the input in input order |
| AllStudents.ParseEmpty | components/AllStudents.tsx:63 | An empty field parses to no skills |
| AllStudents.JoinedPiece | components/AllStudents.tsx:55-63 | Piece k of the ", "-joined skills trims back to skill k |
| AllStudents.JoinedPieces | components/AllStudents.tsx:55-63 | The trimmed pieces of the ", "-joined skills are the skills |
| AllStudents.ParseJoinedNonEmpty | components/AllStudents.tsx:55-63 | A non-empty list of clean skills, joined as the edit form shows it, parses back to itself |
| AllStudents.ParseJoined | components/AllStudents.tsx:55-63 | Any list of clean skills, joined by ", ", parses back to itself |
| AllStudents.ParseStable | components/AllStudents.tsx:55-63 | Parse, join and parse again gives the first parse |
| AllStudents.StudentToSave | components/AllStudents.tsx:61-64 | The saved student has the parsed skills and every other field of the form's student |
| AllStudents.SaveUnchanged | components/AllStudents.tsx:53-64 | Opening a student with clean skills for editing and saving untouched saves that very student |
| AllStudents.StudentDirectory.constructor | components/AllStudents.tsx:25-32 | The initial state: the shown list is the prop as given; the sort config is id ascending; the modal is closed and the form is the empty student |
| AllStudents.StudentDirectory.StudentsChanged | components/AllStudents.tsx:35-37 | A new prop resets the shown list to it; nothing else changes |
| AllStudents.StudentDirectory.HandleSort | components/AllStudents.tsx:39-44 | The sort config becomes the clicked column with its toggled direction. The shown list is the prop list sorted that way. The form is untouched. |
| AllStudents.StudentDirectory.OpenAddModal | components/AllStudents.tsx:46-51 | The form is the empty student with the new id, an empty skills field, adding mode, modal open |
| AllStudents.StudentDirectory.OpenEditModal | components/AllStudents.tsx:53-58 | The form holds the student, its skills joined by ", ", editing mode, modal open |
| AllStudents.StudentDirectory.HandleSave | components/AllStudents.tsx:60-72 | Calls the edit callback when editing and the add callback otherwise, with the student to save; the modal closes |
| App.AddStudent | App.tsx:24-26 | One longer, the new student last, every earlier student unchanged |
| App.EditStudent | App.tsx:28-30 | Same length and order; exactly the students with the updated id are replaced, all others unchanged |
| App.Ids | App.tsx:29 | The ids of the list, in order |
| App.EditKeepsIds | App.tsx:29 | Editing keeps every id in its place |
| App.EditAbsent | App.tsx:29 | Editing with an id nobody has changes nothing |
| App.EditIdempotent | App.tsx:29 | Applying the same edit twice equals applying it once |
| App.EditsCommute | App.tsx:29 | Edits of two different ids can be applied in either order |
| App.AddThenEdit | App.tsx:24-30 | Adding a student under a new id and then editing it equals adding the edited student |
| App.Apply | App.tsx:24-30 | A save adds the student when adding and replaces by id when editing |
| App.SaveUnchangedEdit | App.tsx:28-30 | Opening a listed student with clean skills for editing and saving untouched leaves the list unchanged |
| Sequences.SortByKey | utils/dsa.ts:81 | The array `sort` with a numeric comparator: a permutation, ascending by the key |
| Sequences.SortByKeyStable | utils/dsa.ts:81 | The sort is stable: the elements of any one key come out in the order they went in |
| Sequences.InsertStable | utils/dsa.ts:81 | An insertion step never moves an element past one of equal key |
| Sequences.FilterAppend | utils/dsa.ts:81 | Filtering a concatenation is concatenating the filtered parts |
| Sequences.FilterSwap | utils/dsa.ts:81 | Two neighbours that do not both pass a filter can be swapped without changing the filtered list |
| Sequences.PermutationKeepsNamesDistinct | utils/dsa.ts:233-234 | Sorting a list in which no two elements share a name keeps the names distinct |
| Sequences.InsertKeepsSorted | utils/dsa.ts:81 | Inserting into a sorted list by key keeps it sorted |
| Sequences.Take | utils/dsa.ts:234 | `slice(0, n)`: the first min(n, length) elements |
| Sequences.TakeSortedBelow | utils/dsa.ts:233-234 | When a list sorted by key is cut to n, nothing kept ranks after a later element |
| Sequences.SliceTo | components/Timeline.tsx:38 | `slice(0, end)`, with a negative end counted from the back |
| Sequences.Distinct | utils/dsa.ts:225 | `Array.from(new Set(s))` has no more elements than `s` |
| Sequences.Filter | components/Dashboard.tsx:14 | `filter` returns no more elements than it is given, and each passes the test |
| Sequences.DistinctMembers | utils/dsa.ts:225 | The keys of a `Map`/`Set` built from a list are exactly the list's elements, each once |
| Sequences.DistinctSnoc | utils/dsa.ts:207 | Setting a key adds it at the end of the key order only when it was not there |
| Sequences.FilterMembers | components/Dashboard.tsx:14 | `filter` keeps exactly the elements that satisfy the test |
| Sequences.FilterKeepsOrder | components/AllStudents.tsx:63 | `filter` keeps the order of what it keeps |
| Sequences.FilterKeepsAll | components/AllStudents.tsx:63 | Filtering a list whose elements all pass returns it unchanged |
| Sequences.FilterSplits | utils/dsa.ts:181-187 | Filtering by a test and by its negation splits a list into two parts that together hold its elements |
| Text.Lower | utils/dsa.ts:145 | `toLowerCase` on ASCII: same length, each letter lowered, no upper-case letter left |
| Text.Upper | utils/dsa.ts:206 | `toUpperCase` on ASCII: same length, each letter raised, no lower-case letter left |
| Text.LowerIdempotent | utils/dsa.ts:145 | Lowering twice is lowering once |
| Text.CodeUnitRank | utils/dsa.ts:113-114 | Places a character in UTF-16 code-unit order: below U+D800 first, then every character above U+FFFF, then U+E000 to U+FFFF |
| Text.RankInjective | utils/dsa.ts:113-114 | Different characters get different ranks, so string `<` is total |
| Text.LexLess | utils/dsa.ts:113-114 | String `<`: lexicographic by UTF-16 code unit, a proper prefix first |
| Text.AstralBeforeHighBmp | utils/dsa.ts:113-114 | U+1F600 sorts before U+FF61, though its code point is larger |
| Text.LexLessIrreflexive | utils/dsa.ts:114-115 | String `<` is irreflexive |
| Text.LexLessTransitive | utils/dsa.ts:114-115 | String `<` is transitive |
| Text.LexLessTotal | utils/dsa.ts:114-115 | Of two different strings, one is `<` the other |
| Text.IsSpace | components/AllStudents.tsx:63 | The characters `trim()` removes: tab, vertical tab, form feed, space separators, U+FEFF and the four line terminators |
| Text.Trim | components/AllStudents.tsx:63 | `trim()` gives a slice of its input that has no white space at either end, and everything cut off before and after it is white space |
| Text.TrimIdempotent | components/AllStudents.tsx:63 | Trimming twice is trimming once |
| Text.Split | components/AllStudents.tsx:63 | `split(',')` gives one more piece than there are separators, and no piece holds one |
| Text.JoinSplit | components/AllStudents.tsx:63 | Joining the pieces of a split with the separator restores the text |
| Text.SplitJoinComma | components/AllStudents.tsx:55-63 | Splitting comma-free pieces joined by ", " at ',' gives the first piece, then each later piece with one leading space |
| Text.JoinWith | components/AllStudents.tsx:55 | `pieces.join(sep)` |
| Text.TrimBlank | components/AllStudents.tsx:55-63 | A skill with no white space at either end trims to itself, also with one leading space |

## Left out

- The Gemini network calls and API key handling of the chatbot and resume
  analyzer are outside this model. The chatbot's fallback when `search`
  finds nothing is not modelled either.
- `setTimeout` pacing of the simulation is not modelled; the rounds run as a plain loop.
- `Math.random()` is not modelled. Each round's pass verdict is the
  parameter `passes`, so the pass rates play no part in the proofs.
- `new Date(...)` parsing is not modelled. `SortedCompanies` takes
  `timeOf` as a parameter.
- `Date.now()` is not modelled. `OpenAddModal` takes the new id as a parameter.
- The regular expression `/\b\w+\b/g` that splits a resume into words is
  not modelled. `AnalyzeResumeKeywords` takes the words; `keywordCount` is
  their number.
- `Text.Lower`, `Text.Upper`: case mapping covers only ASCII. Full Unicode `toLowerCase`/`toUpperCase`
  is not modelled.
- Floating point is not modelled: numbers are exact reals. `toFixed`, the
  placement percentage and the average package on the dashboard cards
  (components/Dashboard.tsx:15-16) are not modelled. Those divisions by
  zero on an empty list are display defects.
- `window.print` (App.tsx:20-22) is not modelled.
- React rendering, the modal markup and the `useState`/`useEffect` plumbing
  are not modelled. State hooks are class fields, and an effect is a method
  the caller invokes.
- `ChatTrie.ChatTrie`: trie nodes are records in a table addressed by index,
  not shared objects. Aliasing of node objects is not modelled; nothing
  outside the trie holds one.
- `Dashboard.Reducer`: the accumulator objects that `reduce` mutates by
  reference are values in a sequence; the entry found is replaced in place.
- `MergeSort.SortStudents`: the sort keys are id (the initial
  configuration) and the four sortable columns: name, branch, cgpa and
  package (components/AllStudents.tsx:26, 93-96). The other fields of
  `keyof Student` are never passed. JavaScript `<` on arrays or on values
  of mixed types is not modelled.
- `Timeline.RunSimulation`: the `isSimulating` guard and the
  `activeSimulation`/`roundInfo` display state are not modelled.
- `STUDENTS` and `COMPANIES` of data/mockData.ts are not modelled beyond
  the two students used in `Ranking.RankMockPair`.
