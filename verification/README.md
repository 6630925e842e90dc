# Exam-score reporting core, modelled in Dafny

This project models the computational core of a small reporting API over national
high-school exam results. Each candidate record (`Student`) has a registration
number (`sbd`), nine optional subject scores and an optional foreign-language code
(`ma_ngoai_ngu`). The nine subjects are toan, ngu_van, ngoai_ngu, vat_li, hoa_hoc,
sinh_hoc, lich_su, dia_li and gdcd. A score of `null` means the candidate did not sit
that subject. The model covers:

- the entity's null-skipping group average and the natural/social science averages;
- the four score bands and their thresholds at 4, 6 and 8;
- the persistence schema: score ranges, null defaults, the required and unique `sbd`,
  and the two virtual averages;
- the repository's reads and aggregations, restated as pure functions over
  `seq<Student>` in store order. These are `findById`, `findAll` paging,
  `findByScoreRange`, `searchByFilters`, `getAverageScores`,
  `getScoreLevelStatistics`, `findTopStudents` and `getTopGroupAStudents`;
- the Group A ranking use case, the score lookup use case and its view mapper;
- the data-load script's `parseScore`, its row-to-document mapping and its batch
  arithmetic.

Modules: `Wrappers` (Option/Result), `Numbers` (Min), `Students`, `ScoreLevels`, `StudentSchema`,
`Queries`, `Statistics`, `Ranking`, `UseCases`, `Presentation`, `Seed`.

Scores and means are exact `real`s. Store errors become `Result.Failure`:
- `$limit` with a non-positive count;
- a negative `skip`;
- `getAverageScores` reading `result._id` when `$group` emitted nothing.

## Behaviour of the code that the model keeps

Some intended behaviour written down for this service differs from the code. The
model follows the code in each case:

- `findTopStudents` does not drop records whose group average is null. The store
  sorts null below every number, so those records come last, and they are returned
  when fewer than `limit` records have an average. The Group A use case calls this
  function, not `getTopGroupAStudents`, so candidates with no Group A score can
  appear in the top-10 report. `UseCases.ExecuteGroupAKeepsNullAverage` shows a
  one-record store where this happens.
  For any order the store gives equal averages,
  `Ranking.AnyTopStudentsWithAverageRankLikeTopGroupA` proves that this is the only
  difference in averages. With the null-average records dropped, both results hold the
  same averages in the same positions. For the model's tie order,
  `Ranking.TopStudentsWithAverageIsTopGroupA` proves that the records are also the same.
- A limit of 0 or less is an error from the store's `$limit` stage. It does not
  give an empty result.
- `getAverageScores` on an empty store throws, because `$group` emits no document.
  Otherwise every subject appears, and a subject nobody sat has a null average.
- `getScoreLevelStatistics` on an empty store returns no entries at all. It does not
  return nine zero entries.
- `parseScore` turns a genuine score of 0 into null, because `0 || null` is `null`.
  `Seed.ParseScoreDropsZero` states this.
- The band accumulators compare null as smaller than every number, so
  `$lt: [null, 4]` holds. Only the `$ne: null` conjunct keeps null scores out of
  the below-average band. The model keeps both conjuncts (`Statistics.BandCondition`).

The store does not fix the order of records with equal averages. The model's sort
keeps store order among ties, which is one order the store may produce.
`Ranking.IsTopK` describes every result any tie order can give. It fixes the averages
in each position, as `Ranking.TopKSameAverages` proves. It does not fix which of the
records tied at the limit make the cut, as `Ranking.TiedRecordsEitherMakeTheCut` shows.
Only `Ranking.TopStudentsWithAverageIsTopGroupA` states that records are equal in a
way that holds only for the model's tie order.
`UseCases.ExecuteGroupAKeepsNullAverage` also states exact results, but on a
one-record store, where no ties arise.

## Model

| member | source | states |
|---|---|---|
| Students.AllSubjectsListed | src/infrastructure/repositories/student.repository.ts:138 | the report's subject list names every one of the nine subjects |
| Students.CalculateAverageNullIff | src/domain/entities/student.ts:16-21 | the average is null exactly when every listed subject's score is null |
| Students.CalculateAverageIsRatio | src/domain/entities/student.ts:17-23 | a defined average is the total of the non-null listed scores divided by their count; nulls count in neither the total nor the count |
| Students.CalculateAverageBetweenExtremes | src/domain/entities/student.ts:23 | a defined average lies between the smallest and the largest present listed score |
| Students.CalculateAverageSkipsNull | src/domain/entities/student.ts:17-23 | over toan = 9, vat_li = 7, hoa_hoc = null the Group A average is 8 |
| StudentSchema.AverageOfValidStudentInRange | src/domain/entities/student.ts:16-23 | for a record whose scores are all in [0, 10], every defined average over any subject list is in [0, 10] |
| ScoreLevels.Classify | src/domain/value-objects/score-level.ts:2-5 | the band returned satisfies its threshold condition; EXCELLENT exactly from 8 up, BELOW_AVERAGE exactly below 4 |
| ScoreLevels.ClassifyIff | src/domain/value-objects/score-level.ts:2-5 | a score meets a band's condition exactly when it classifies to that band, so the bands are exhaustive and disjoint and 4, 6, 8 go to the higher band |
| ScoreLevels.ClassifyMonotone | src/domain/value-objects/score-level.ts:2-5 | a higher score never gets a lower band |
| StudentSchema.Validate | src/infrastructure/database/mongoose/models/student.model.ts:4-68 | a document is accepted exactly when `sbd` is a non-empty string and every given score is in [0, 10]; a refusal names exactly the failing fields; an accepted document is stored with absent fields as null |
| StudentSchema.AbsentFieldsDefaultToNull | src/infrastructure/database/mongoose/models/student.model.ts:11-68 | a document giving only `sbd` is stored with all nine scores and `ma_ngoai_ngu` null |
| StudentSchema.InsertOne | src/infrastructure/database/mongoose/models/student.model.ts:5-10 | a valid document whose `sbd` is already stored is refused as a duplicate key; otherwise it is appended, and a store with unique, valid records stays so |
| StudentSchema.NaturalScienceVirtualAgrees | src/infrastructure/database/mongoose/models/student.model.ts:89-93 | `natural_science_average` is null exactly when vat_li, hoa_hoc and sinh_hoc are all null, is otherwise the mean of those present, and equals the entity's natural science average |
| StudentSchema.SocialScienceVirtualAgrees | src/infrastructure/database/mongoose/models/student.model.ts:95-99 | `social_science_average` is null exactly when lich_su, dia_li and gdcd are all null, is otherwise the mean of those present, and equals the entity's social science average |
| Queries.Where | src/infrastructure/repositories/student.repository.ts:133-134 | a collection scan returns each matching record as many times as it is stored and no other record |
| Queries.FindById | src/infrastructure/repositories/student.repository.ts:8-12 | the lookup is null exactly when no record has the registration number; otherwise it returns a stored record with that number |
| Queries.FindByIdUnique | src/infrastructure/database/mongoose/models/student.model.ts:5-10 | with unique registration numbers the lookup returns the one record that has the number |
| Queries.FindAll | src/infrastructure/repositories/student.repository.ts:14-21 | page p of size l is the stored window starting at (p-1)*l, of length min(l, what remains) for l > 0, everything that remains for l = 0, and min(|l|, what remains) for l < 0; a negative skip is an error; omitted arguments are page 1 and size 10 |
| Queries.PagesAreConsecutive | src/infrastructure/repositories/student.repository.ts:14-18 | with positive page k and size l, when records remain after page k, page k holds l records and page k+1 starts at record k*l |
| Queries.FindByScoreRange | src/infrastructure/repositories/student.repository.ts:43-48 | a record is returned exactly when its score for the subject is present and between min and max, both ends included |
| Queries.BuildQueryCombinesBounds | src/infrastructure/repositories/student.repository.ts:119-131 | a subject is constrained exactly when a minimum or a maximum is given for it, and a minimum and a maximum for one subject become one range |
| Queries.SearchByFiltersMatches | src/infrastructure/repositories/student.repository.ts:103-135 | a record is returned exactly when it is stored and meets every given constraint: sbd pattern, language code, each minimum and each maximum |
| Statistics.GetAverageScores | src/infrastructure/repositories/student.repository.ts:76-97 | an empty store is an error; otherwise the result has a key for each of the nine subjects |
| Statistics.AverageScoresMeaning | src/infrastructure/repositories/student.repository.ts:79-91 | a subject's average is null exactly when no record has that score, else it is the total of the present scores over their count |
| Statistics.AverageScoresInRange | src/infrastructure/repositories/student.repository.ts:79-91 | over valid records every defined subject average is in [0, 10] |
| Statistics.BlankRecordChangesNoAverage | src/infrastructure/repositories/student.repository.ts:79-91 | adding a record with every score null changes no subject average |
| Statistics.GetScoreLevelStatistics | src/infrastructure/repositories/student.repository.ts:137-153 | an empty store gives no entries; otherwise there is one entry per subject, each with exactly the four band keys |
| Statistics.ToScoreLevelStats | src/infrastructure/repositories/student.repository.ts:204-213 | each group's counts are copied unchanged onto the four band keys, with subject and total kept |
| Statistics.BandTallyIsClassifiedCount | src/infrastructure/repositories/student.repository.ts:154-187 | each band's pipeline count equals the number of present scores that classify to that band |
| Statistics.BandsPartitionPresent | src/infrastructure/repositories/student.repository.ts:154-190 | the four band counts add up to the number of non-null scores |
| Statistics.ScoreLevelStatisticsCounts | src/infrastructure/repositories/student.repository.ts:137-213 | in each subject's entry the band counts follow classification, add up to total, and total is the number of records with that score present |
| Statistics.NullScoreCountsNowhere | src/infrastructure/repositories/student.repository.ts:154-190 | a null score adds to no band and not to the total |
| Statistics.BoundaryExample | src/infrastructure/repositories/student.repository.ts:154-190 | scores 3.9, 4, 5.9, 6, 7.9, 8, 10 and null give 1 below average, 2 average, 2 good, 2 excellent and total 7 |
| Ranking.SortDescCorrect | src/infrastructure/repositories/student.repository.ts:64-66 | the sort stage returns a permutation of its input, ordered by average descending with null last |
| Ranking.FindTopStudentsIsTopK | src/infrastructure/repositories/student.repository.ts:49-74 | a non-positive limit is an error; otherwise the result is drawn from the whole store, has min(limit, store size) records, is sorted descending, and no left-out record ranks above a returned one |
| Ranking.KeyedTopK | src/infrastructure/repositories/student.repository.ts:231-241 | after the null-average filter only records with an average are ranked, and every left-out record with an average ranks no higher than each returned one |
| Ranking.GetTopGroupAStudentsIsTopK | src/infrastructure/repositories/student.repository.ts:216-246 | a non-positive limit is an error; otherwise only records with a Group A average are returned, as a top-limit selection among them, sorted descending |
| Ranking.TopKWithKey | src/infrastructure/repositories/student.repository.ts:231-235 | dropping the null-average records from any top-limit selection over the store gives a top-limit selection over the records with an average |
| Ranking.TopKSameAverages | src/infrastructure/repositories/student.repository.ts:64-66 | any two top-limit selections from one pool have the same length and the same average in each position, whatever the tie order |
| Ranking.TiedRecordsEitherMakeTheCut | src/infrastructure/repositories/student.repository.ts:236-241 | with two distinct records of equal average and limit 1, returning either one is a top-limit selection, so the store's tie order decides which is returned |
| Ranking.AnyTopStudentsWithAverageRankLikeTopGroupA | src/infrastructure/repositories/student.repository.ts:231-238 | for any tie order, `findTopStudents`'s Group A result without its null-average records is a result `getTopGroupAStudents` may give, with the same averages position by position as any result it gives |
| Ranking.TopStudentsWithAverageIsTopGroupA | src/infrastructure/repositories/student.repository.ts:231-235 | for the model's tie order, removing the null-average records from `findTopStudents`'s Group A result gives exactly `getTopGroupAStudents`'s result |
| UseCases.ExecuteGroupAIsTopK | src/application/use-cases/get-top-students.ts:7-10 | the use case ranks the whole store by the toan, vat_li, hoa_hoc average; it is a top-limit selection with min(limit, store size) records, and an omitted limit is 10 |
| UseCases.ControllerCallReturnsTen | src/infrastructure/controllers/report.controller.ts:77 | the report endpoint's call returns min(10, store size) records, the same as the default limit |
| UseCases.ExecuteGroupAKeepsNullAverage | src/application/use-cases/get-top-students.ts:9 | on a one-record store, a record with no Group A score is returned by the use case but left out by `getTopGroupAStudents` |
| UseCases.ExecuteGroupAMatchesGroupARanking | src/application/use-cases/get-top-students.ts:8-9 | with its null-average records dropped, the use case's result is a top-limit selection over the records with a Group A average, and in each position it has the same average as any result `getTopGroupAStudents` may give |
| UseCases.GetStudentScore | src/application/use-cases/get-student-scores.ts:7-24 | the lookup is null exactly when no stored record has the registration number; otherwise the output carries that number |
| UseCases.GetStudentScoreCopiesRecord | src/application/use-cases/get-student-scores.ts:11-23 | the output copies `sbd`, `ma_ngoai_ngu` and all nine scores, nulls included, from the one matching record |
| Presentation.ToViewModel | src/presentation/Mappers/student-score.mapper.ts:5-18 | the view has the same `sbd`, `ma_ngoai_ngu` and nine scores as the lookup output |
| Presentation.LookupThenViewIsStoredRecord | src/presentation/Mappers/student-score.mapper.ts:5-18 | lookup followed by the mapper gives back exactly the stored record's fields, and gives null when no record has the number |
| Seed.ReplaceFirstComma | src/scripts/seed.ts:24 | only the first comma becomes a dot; every other character and the length are unchanged |
| Seed.ParseScore | src/scripts/seed.ts:22-25 | undefined, empty and blank cells give null; otherwise the result is the parse of the comma-fixed text, and it is null exactly when that parse fails or gives 0 |
| Seed.ParseScoreDecimalComma | src/scripts/seed.ts:24 | "8,25" reaches the parser as "8.25" |
| Seed.ParseScoreDropsZero | src/scripts/seed.ts:24 | a cell that parses to 0 is stored as null |
| Seed.RowToDocument | src/scripts/seed.ts:43-55 | `sbd` is copied verbatim, and an absent or empty `ma_ngoai_ngu` becomes null |
| Seed.RowToDocumentScores | src/scripts/seed.ts:45-54 | each score field of the document is given, and is the parsed cell or null |
| Seed.RowToDocumentValidates | src/scripts/seed.ts:43-55 | a mapped row is accepted by the schema exactly when its `sbd` is non-empty and every parsed score is in [0, 10]; the stored record then has the row's `sbd`, its language code or null, and the parsed scores |
| Seed.BatchCount | src/scripts/seed.ts:35 | the batch count is the least number of 1000-row batches that covers every row |
| Seed.Batches | src/scripts/seed.ts:38-41 | there are that many batches, and batch i holds rows i*1000 up to but not including min(i*1000+1000, n) |
| Seed.BatchesPartitionRows | src/scripts/seed.ts:38-41 | the batches are non-empty, hold at most 1000 rows each, and laid end to end give back every row once, in order |

## Left out

- Redis cache (`cache.service.ts`): network I/O, a lazy singleton, retries and JSON round trips. None of it affects the computed values.
- Controllers, routes, request validation, server set-up, configuration and the database connection: HTTP and process plumbing.
- Repository `create`, `update`, `delete` and `getStudentCount`: thin store wrappers that the modelled use cases do not call.
- CSV reading, `insertMany`, logging and the script's error handling: file and database I/O.
- `parseFloat` is a parameter of `Seed.ParseScore` and stands for any decimal parser, with `None` for NaN. Exponents and `Infinity` are therefore not modelled.
- The case-insensitive `$regex` test on `sbd` is a parameter (`sbdMatches`) of `Queries.SearchByFilters`.
- `filters.sbd` reaches `$regex` unescaped, and a malformed pattern such as `(` makes `find` throw. The model has no error path for this, because the boolean `sbdMatches` parameter cannot express one.
- Subject names are the nine-valued `Subject` type. The source also accepts other record keys in `findByScoreRange`, `findTopStudents`, the `searchByFilters` bound maps and `Student.calculateAverage` (`(keyof Student)[]`, src/domain/entities/student.ts:16). With `sbd` or `ma_ngoai_ngu` in the list, `calculateAverage`'s `reduce` would concatenate strings.
- Limits, pages and skips are integers. Non-integer JavaScript numbers are not modelled.
- Scores are exact reals, so floating-point rounding of sums and means is not modelled.
- BSON's distinction between a missing field and a null field is not modelled, except for `StudentSchema.Field` on incoming documents.
- Mongoose's casting of non-numeric input and the `createdAt`/`updatedAt` timestamps are not modelled.
- Statistics.GetScoreLevelStatistics: lists the entries in the subject order of line 138. The store does not order `$group` output.
- Ranking.TopStudentsWithAverageIsTopGroupA: proved only for the model's sort, which keeps store order among equal averages. Under the store's unspecified tie order the two queries agree only up to exchanging records with equal averages, including which tied records make the cut. `Ranking.AnyTopStudentsWithAverageRankLikeTopGroupA` states this order-free agreement.
