# DevHabit core, modelled in Dafny

DevHabit is an ASP.NET Core web API for tracking habits. This project models
the parts of its API layer that carry real logic, one Dafny module per C# file:

- **Sorting** (`QueryableExtensions`, `SortMappingProvider`): a `sort` query
  string such as `"name desc, createdAt"` becomes an ordered list of
  `Property ASC|DESC` clauses through the registered sort mappings. Validation
  of the same string is proved sound with respect to the sort.
- **Data shaping** (`DataShapingTool`): a `fields` query string selects the
  public properties of a DTO, case-insensitively, and the shaped object holds
  them in declaration order. The property list is cached per type.
- **Entry import jobs** (`EntryImportsController`): the caller's jobs,
  newest first and paged, with HATEOAS links. Also single-job lookup and job
  creation.
- **Habit tags** (`HabitTagsController`): reconciling a habit's tag links with
  a requested id list, and deleting one link.
- **Validators** (`CreateHabitDtoValidation`, `CreateTagDtoValidator`, over
  the shared `FluentRules`): every FluentValidation rule is evaluated, and the
  failures are listed in declaration order.
- **Mappings** (`HabitMappings`, `TagMappings`): building an entity from a
  create DTO, its DTO view, and in-place updates.
- **ETag store** (`InMemoryETagStore`): a URI-to-tag map, and tags spelled as
  upper-case hex of a SHA-512 digest.
- **Validation errors** (`ValidationExceptionHandler`): failures grouped by
  property into a lower-cased dictionary inside a 400 problem-details response.

Supporting modules:

- `Wrappers` holds `Option` (a C# null) and `Result` (an exception).
- `Text` models the .NET string functions the code calls.
- `HabitDtos` and `TagDtos` hold the DTO records.

Time, GUIDs, the hash, JSON serialisation, UTF-8 encoding, reflection
(`GetProperties`) and the `HasNextPage`/`HasPreviousPage` computations are
inputs. State the C# code mutates is held in classes:

- the controllers' stores;
- the tool's cache;
- the ETag dictionary;
- the entities;
- the HTTP response.

## Model

| member | source | states |
|---|---|---|
| SortMappingProvider.GetMappings | DevHabit/src/DevHabit.Api/Database/SortMapping/SortMappingProvider.cs:5-15 | an error exactly when no definition is registered for the (source, destination) pair; otherwise the mappings of the first registered definition |
| SortMappingProvider.ValidationFields | DevHabit/src/DevHabit.Api/Database/SortMapping/SortMappingProvider.cs:22-26 | the checked names are non-blank and no more numerous than the comma items |
| SortMappingProvider.ValidateMappings | DevHabit/src/DevHabit.Api/Database/SortMapping/SortMappingProvider.cs:17-32 | a blank sort is valid without a lookup; a non-blank one fails exactly when the pair is unregistered, and is otherwise valid iff every checked name has a mapping (ignoring case) |
| SortMappingProvider.SingleFieldChecked | DevHabit/src/DevHabit.Api/Database/SortMapping/SortMappingProvider.cs:22-26 | a plain name is checked as itself |
| SortMappingProvider.FieldWithDirection | DevHabit/src/DevHabit.Api/Database/SortMapping/SortMappingProvider.cs:22-26 | for a field free of white space and commas, "f dir" checks exactly the name f |
| SortMappingProvider.DirectionIgnored | DevHabit/src/DevHabit.Api/Database/SortMapping/SortMappingProvider.cs:24 | "f dir" validates exactly like "f", whatever the direction token |
| QueryableExtensions.SortItemsTrimmed | DevHabit/src/DevHabit.Api/Extensions/QueryableExtensions.cs:17-20 | the sort items are non-empty, trimmed at both ends, and no more numerous than the comma parts |
| QueryableExtensions.ParsedFieldMeaning | DevHabit/src/DevHabit.Api/Extensions/QueryableExtensions.cs:44-51 | the field is the text before the first space; descending iff a second token exists and equals "desc" ignoring case |
| QueryableExtensions.DoubleSpaceIsAscending | DevHabit/src/DevHabit.Api/Extensions/QueryableExtensions.cs:46-48 | with two spaces after the field, the second token is empty, so the clause is ascending whatever follows |
| QueryableExtensions.FirstMatch | DevHabit/src/DevHabit.Api/Extensions/QueryableExtensions.cs:27 | none exactly when no mapping's sort field equals the field ignoring case; otherwise the index of the first one |
| QueryableExtensions.DirectionFor | DevHabit/src/DevHabit.Api/Extensions/QueryableExtensions.cs:28-34 | DESC exactly when "requested descending" differs from the mapping's Reverse |
| QueryableExtensions.ApplySort | DevHabit/src/DevHabit.Api/Extensions/QueryableExtensions.cs:8-42 | yields the ordering of the SortOrder specification: the default for a blank sort, otherwise the clauses of the items, or the failure of the first unmapped field |
| QueryableExtensions.OrderByParts | DevHabit/src/DevHabit.Api/Extensions/QueryableExtensions.cs:22-37 | the foreach loop builds exactly the clauses of the items, in order, or stops with the failure of the first item without a mapping |
| QueryableExtensions.ClausesForSnoc | DevHabit/src/DevHabit.Api/Extensions/QueryableExtensions.cs:24-37 | one more mapped item appends exactly its clause |
| QueryableExtensions.ClausesForStops | DevHabit/src/DevHabit.Api/Extensions/QueryableExtensions.cs:27 | the first unmapped item ends the sort with its error, whatever follows |
| QueryableExtensions.ClausesForEach | DevHabit/src/DevHabit.Api/Extensions/QueryableExtensions.cs:24-37 | a successful sort has one clause per item, the i-th being the clause of the i-th item |
| QueryableExtensions.ClausesForFails | DevHabit/src/DevHabit.Api/Extensions/QueryableExtensions.cs:27 | the sort fails iff some item has no mapping |
| QueryableExtensions.ClausesForFirstFailure | DevHabit/src/DevHabit.Api/Extensions/QueryableExtensions.cs:24-27 | a failed sort reports the field of an unmapped item all of whose predecessors are mapped |
| QueryableExtensions.CollectFails | DevHabit/src/DevHabit.Api/Extensions/QueryableExtensions.cs:24-27 | taking outcomes in order fails iff one of them is a failure |
| QueryableExtensions.CollectAppend | DevHabit/src/DevHabit.Api/Extensions/QueryableExtensions.cs:24-37 | collecting two lists of outcomes gives the first's values then the second's, the first failure winning |
| QueryableExtensions.BlankSortIsDefault | DevHabit/src/DevHabit.Api/Extensions/QueryableExtensions.cs:14-15 | a null or white-space sort gives exactly the default ordering |
| QueryableExtensions.ClausePerItem | DevHabit/src/DevHabit.Api/Extensions/QueryableExtensions.cs:17-37 | one clause per non-blank trimmed item, in input order, naming the first matching mapping's property, DESC iff descending XOR Reverse |
| QueryableExtensions.UnmappedFieldFails | DevHabit/src/DevHabit.Api/Extensions/QueryableExtensions.cs:27 | a non-blank sort fails exactly when one of its fields has no mapping |
| QueryableExtensions.CommasOnlyGiveNoClauses | DevHabit/src/DevHabit.Api/Extensions/QueryableExtensions.cs:14-20 | a non-blank sort of commas and spaces gives an empty clause list, not the default |
| QueryableExtensions.NoItemsFromBlankParts | DevHabit/src/DevHabit.Api/Extensions/QueryableExtensions.cs:19 | blank parts are all filtered out |
| QueryableExtensions.ClauseTexts | DevHabit/src/DevHabit.Api/Extensions/QueryableExtensions.cs:36 | one "Property ASC/DESC" text per clause, in order |
| QueryableExtensions.OrderByTextSplits | DevHabit/src/DevHabit.Api/Extensions/QueryableExtensions.cs:39 | the comma-joined OrderBy text splits back into exactly the clause texts |
| QueryableExtensions.SortFields | DevHabit/src/DevHabit.Api/Extensions/QueryableExtensions.cs:26 | the parsed field of every item, in order |
| QueryableExtensions.ValidationChecksSortFields | DevHabit/src/DevHabit.Api/Database/SortMapping/SortMappingProvider.cs:22-26 | validation checks exactly the fields ApplySort looks up |
| QueryableExtensions.ValidationIsSound | DevHabit/src/DevHabit.Api/Database/SortMapping/SortMappingProvider.cs:17-32 | for the registered mappings, validation returns true iff ApplySort succeeds |
| QueryableExtensions.AllMappedSortFields | DevHabit/src/DevHabit.Api/Database/SortMapping/SortMappingProvider.cs:30-31 | every sort field mapped iff no item's field is unmapped |
| DataShapingTool.TrimmedEntries | DevHabit/src/DevHabit.Api/Tools/DataShapingTool.cs:46-48 | empty entries are removed before trimming, so there are at most as many items as parts |
| DataShapingTool.FilterRequested | DevHabit/src/DevHabit.Api/Tools/DataShapingTool.cs:70-73 | keeps exactly the declared properties requested ignoring case, never more than declared |
| DataShapingTool.RequestedPositions | DevHabit/src/DevHabit.Api/Tools/DataShapingTool.cs:70-73 | the positions of the requested properties, each a declared position, strictly increasing |
| DataShapingTool.FilterInDeclarationOrder | DevHabit/src/DevHabit.Api/Tools/DataShapingTool.cs:70-73 | the k-th kept property is the declared property at the k-th of those positions, so the filter keeps declaration order |
| DataShapingTool.Put | DevHabit/src/DevHabit.Api/Tools/DataShapingTool.cs:18 | an ExpandoObject assignment adds at most one key and leaves other keys' values alone |
| DataShapingTool.PutNewKey | DevHabit/src/DevHabit.Api/Tools/DataShapingTool.cs:18 | assigning a new key appends it |
| DataShapingTool.ShapeIsProjection | DevHabit/src/DevHabit.Api/Tools/DataShapingTool.cs:12-21 | the shaped object has the selected names (declared spelling) in order, each with the entity's value |
| DataShapingTool.NoFieldsSelectsAll | DevHabit/src/DevHabit.Api/Tools/DataShapingTool.cs:61-75 | with no field items, every public property is selected |
| DataShapingTool.SelectsExactlyRequested | DevHabit/src/DevHabit.Api/Tools/DataShapingTool.cs:64-73 | with field items, exactly the requested properties, without duplicates |
| DataShapingTool.FilterKeepsDistinct | DevHabit/src/DevHabit.Api/Tools/DataShapingTool.cs:71-73 | filtering keeps distinct names distinct |
| DataShapingTool.SameRequestSameSelection | DevHabit/src/DevHabit.Api/Tools/DataShapingTool.cs:49-72 | requests that name the same properties (ignoring case) select the same list |
| DataShapingTool.RepeatedNamesCollapse | DevHabit/src/DevHabit.Api/Tools/DataShapingTool.cs:49-64 | "f,g,f" with g a case variant of f shapes like "f" |
| DataShapingTool.VariantsRequestAlike | DevHabit/src/DevHabit.Api/Tools/DataShapingTool.cs:49 | a repeated or case-variant name requests the same properties |
| DataShapingTool.ItemOfName | DevHabit/src/DevHabit.Api/Tools/DataShapingTool.cs:61-64 | a plain name is a single item, itself |
| DataShapingTool.ItemsOfList | DevHabit/src/DevHabit.Api/Tools/DataShapingTool.cs:61-64 | "f,g,f" of plain names gives the items f, g, f |
| DataShapingTool.PlainItems | DevHabit/src/DevHabit.Api/Tools/DataShapingTool.cs:62-63 | trimmed non-empty parts are kept as they are |
| DataShapingTool.BlankFieldsSelectNothing | DevHabit/src/DevHabit.Api/Tools/DataShapingTool.cs:43-73 | a blank non-empty fields string is valid, but GetPropertyInfos then selects no property |
| DataShapingTool.NothingRequestedByEmptyName | DevHabit/src/DevHabit.Api/Tools/DataShapingTool.cs:72 | the empty item matches no named property |
| DataShapingTool.CommasOnlySelectAll | DevHabit/src/DevHabit.Api/Tools/DataShapingTool.cs:46-64 | "," is valid and selects every property |
| DataShapingTool.ValidatedFieldsAreSelected | DevHabit/src/DevHabit.Api/Tools/DataShapingTool.cs:41-76 | every field item that passes validation names a selected property |
| DataShapingTool.SelectedAreNames | DevHabit/src/DevHabit.Api/Tools/DataShapingTool.cs:70-75 | every selected property is a declared one |
| DataShapingTool.DataShapingTool.CachedProperties | DevHabit/src/DevHabit.Api/Tools/DataShapingTool.cs:10-68 | returns the type's properties; the cache gains that entry and an existing entry never changes |
| DataShapingTool.DataShapingTool.Validate | DevHabit/src/DevHabit.Api/Tools/DataShapingTool.cs:41-57 | true for null or blank fields; otherwise true iff every trimmed non-empty item names a property ignoring case |
| DataShapingTool.DataShapingTool.GetPropertyInfos | DevHabit/src/DevHabit.Api/Tools/DataShapingTool.cs:59-76 | all properties when no item is given; otherwise the requested ones in declaration order |
| DataShapingTool.DataShapingTool.ShapeData | DevHabit/src/DevHabit.Api/Tools/DataShapingTool.cs:12-21 | the entity projected on the selected properties |
| DataShapingTool.DataShapingTool.ShapeCollectionData | DevHabit/src/DevHabit.Api/Tools/DataShapingTool.cs:23-39 | one shaped object per entity, in order, each the projection ShapeData gives |
| DataShapingTool.FillShape | DevHabit/src/DevHabit.Api/Tools/DataShapingTool.cs:17-33 | the assignment loop builds the projection on the given properties |
| EntryImportsController.Wrap32 | DevHabit/src/DevHabit.Api/Controllers/EntryImportsController.cs:108 | unchecked 32-bit arithmetic: the identity in range and congruent modulo 2^32 |
| EntryImportsController.Owned | DevHabit/src/DevHabit.Api/Controllers/EntryImportsController.cs:101-102 | exactly the caller's jobs, drawn from the table |
| EntryImportsController.InsertByDate | DevHabit/src/DevHabit.Api/Controllers/EntryImportsController.cs:103 | inserting into a newest-first list keeps it newest first and adds exactly the job |
| EntryImportsController.NewestFirst | DevHabit/src/DevHabit.Api/Controllers/EntryImportsController.cs:103 | ordered by CreatedAtUtc descending and a permutation of its input |
| EntryImportsController.PageWindow | DevHabit/src/DevHabit.Api/Controllers/EntryImportsController.cs:107-109 | the intended page (offset without wrap-around) is the run starting at (page-1)*pageSize, clamped to the query, of at most pageSize jobs |
| EntryImportsController.WindowAsIntended | DevHabit/src/DevHabit.Api/Controllers/EntryImportsController.cs:107-109 | whenever (page-1)*pageSize fits in 32 bits, the page as written is the intended page |
| EntryImportsController.WindowBound | DevHabit/src/DevHabit.Api/Controllers/EntryImportsController.cs:109 | a page as written never holds more than pageSize jobs, whatever the offset |
| EntryImportsController.OffsetOverflowShowsFirstPage | DevHabit/src/DevHabit.Api/Controllers/EntryImportsController.cs:108 | page 3 of size 2^30 wraps the offset to -2^31, so the page as written is page 1, while the intended page of a query of at most 2^31 jobs is empty |
| EntryImportsController.CollectionLinksOrder | DevHabit/src/DevHabit.Api/Controllers/EntryImportsController.cs:174-200 | "self" first; "next-page" (page+1) iff there is a next page; "previous-page" (page-1) iff there is a previous one; all GET links to GetImportJobs with the same pageSize |
| EntryImportsController.PageOfCallersJobs | DevHabit/src/DevHabit.Api/Controllers/EntryImportsController.cs:101-127 | TotalCount is the number of the caller's jobs; items are the caller's, newest first, at most pageSize for a non-negative pageSize |
| EntryImportsController.WindowIsRun | DevHabit/src/DevHabit.Api/Controllers/EntryImportsController.cs:107-109 | every page, whatever its arguments, is a contiguous run of the query |
| EntryImportsController.TotalCountCountsOwned | DevHabit/src/DevHabit.Api/Controllers/EntryImportsController.cs:105 | TotalCount equals the count of rows with the caller's id |
| EntryImportsController.LinksOnlyWhenIncluded | DevHabit/src/DevHabit.Api/Controllers/EntryImportsController.cs:113-132 | the result and every item carry links iff IncludeLinks, each item a self link to its own id |
| EntryImportsController.FindOwned | DevHabit/src/DevHabit.Api/Controllers/EntryImportsController.cs:148-151 | none iff no job has that id and the caller as owner; otherwise such a job |
| EntryImportsController.CreateLinksForImportJobs | DevHabit/src/DevHabit.Api/Controllers/EntryImportsController.cs:174-200 | the conditional adds build exactly the collection links |
| EntryImportsController.JobDtos | DevHabit/src/DevHabit.Api/Controllers/EntryImportsController.cs:110-119 | one DTO per job of the page, in order, carrying the job's self link iff links are requested |
| EntryImportsController.AttachItemLinks | DevHabit/src/DevHabit.Api/Controllers/EntryImportsController.cs:113-119 | every DTO, in order, gets the self link of its own job |
| EntryImportsController.EntryImportsController.GetImportJobs | DevHabit/src/DevHabit.Api/Controllers/EntryImportsController.cs:90-135 | page and pageSize default to 1 and 10 as in the handler's signature; Unauthorized iff the user id is null or blank; otherwise the page of the caller's jobs, skipped by the offset computed in unchecked 32-bit arithmetic as written, with TotalCount and links as specified |
| EntryImportsController.EntryImportsController.GetImportJob | DevHabit/src/DevHabit.Api/Controllers/EntryImportsController.cs:138-164 | Unauthorized iff no user; NotFound iff no job with that id is the caller's; otherwise that job, with links iff requested |
| EntryImportsController.EntryImportsController.CreateImportJob | DevHabit/src/DevHabit.Api/Controllers/EntryImportsController.cs:34-87 | Unauthorized and no change without a user; otherwise one Pending job of the caller with the file is appended and returned as CreatedAt GetImportJob |
| HabitTagsController.KeepRequested | DevHabit/src/DevHabit.Api/Controllers/HabitTagsController.cs:41 | exactly the links whose tag is requested |
| HabitTagsController.KeepRequestedTags | DevHabit/src/DevHabit.Api/Controllers/HabitTagsController.cs:41 | the kept tag set is the old set intersected with the request; distinct links stay distinct |
| HabitTagsController.Except | DevHabit/src/DevHabit.Api/Controllers/HabitTagsController.cs:42 | the requested ids not linked yet, each once |
| HabitTagsController.NewLinks | DevHabit/src/DevHabit.Api/Controllers/HabitTagsController.cs:42-48 | one link per id, for the habit, stamped now |
| HabitTagsController.ReconciledLinks | DevHabit/src/DevHabit.Api/Controllers/HabitTagsController.cs:41-48 | afterwards the linked tags are exactly the requested set, each once; still-requested links are the old ones (CreatedAtUtc kept); every other link is new for a previously unlinked tag |
| HabitTagsController.ExistingCountCheck | DevHabit/src/DevHabit.Api/Controllers/HabitTagsController.cs:33-39 | the count of existing requested tags equals the request length iff all ids exist and none repeats |
| HabitTagsController.DistinctCardinality | DevHabit/src/DevHabit.Api/Controllers/HabitTagsController.cs:33-36 | a list has as many distinct ids as elements iff no id repeats |
| HabitTagsController.DistinctCons | DevHabit/src/DevHabit.Api/Controllers/HabitTagsController.cs:33-36 | a list has no repeats iff its head does not recur and its tail has no repeats |
| HabitTagsController.RemoveTag | DevHabit/src/DevHabit.Api/Controllers/HabitTagsController.cs:64-65 | exactly the links to other tags remain |
| HabitTagsController.RemoveTagRemovesOne | DevHabit/src/DevHabit.Api/Controllers/HabitTagsController.cs:58-67 | deleting a present link removes one link and that tag only |
| HabitTagsController.RemoveTagKeepsDistinct | DevHabit/src/DevHabit.Api/Controllers/HabitTagsController.cs:64-65 | deleting keeps the links distinct |
| HabitTagsController.NothingToRemove | DevHabit/src/DevHabit.Api/Controllers/HabitTagsController.cs:58-62 | deleting an absent tag changes nothing |
| HabitTagsController.ReconciledInvariant | DevHabit/src/DevHabit.Api/Controllers/HabitTagsController.cs:41-48 | reconciling keeps the store invariant: distinct links, of this habit, to existing tags |
| HabitTagsController.HabitTagsController.UpsertTagToHabit | DevHabit/src/DevHabit.Api/Controllers/HabitTagsController.cs:19-53 | NotFound for an unknown habit; NoContent if the sets already agree; BadRequest on an unknown or repeated id; Ok otherwise, installing the reconciled links; nothing changes unless Ok; the invariant is kept |
| HabitTagsController.HabitTagsController.DeleteHabitTag | DevHabit/src/DevHabit.Api/Controllers/HabitTagsController.cs:56-68 | NotFound and no change iff the link is absent; otherwise NoContent with exactly that link removed |
| FluentRules.ReportedMembers | DevHabit/src/DevHabit.Api/DTOs/Habits/CreateHabitDtoValidation.cs:30-75 | a failure is reported iff a check that reports it is violated |
| FluentRules.NothingReported | DevHabit/src/DevHabit.Api/DTOs/Habits/CreateHabitDtoValidation.cs:30-75 | a validator reports nothing iff none of its checks is violated |
| FluentRules.ReportedAppend | DevHabit/src/DevHabit.Api/DTOs/Habits/CreateHabitDtoValidation.cs:30-75 | the failures of consecutive rules are those of the first rules, then those of the later ones |
| FluentRules.FailuresOfSelects | DevHabit/src/DevHabit.Api/DTOs/Habits/CreateHabitDtoValidation.cs:30-75 | the failures of one property are exactly the listed failures under that property |
| FluentRules.ReportedUnder | DevHabit/src/DevHabit.Api/DTOs/Habits/CreateHabitDtoValidation.cs:30-34 | the checks of one property's rule report all their failures under it and none under another property |
| FluentRules.FailuresOfAppend | DevHabit/src/DevHabit.Api/DTOs/Habits/CreateHabitDtoValidation.cs:30-75 | per-property failures keep rule order across rules |
| CreateHabitDtoValidation.ValidHabit | DevHabit/src/DevHabit.Api/DTOs/Habits/CreateHabitDtoValidation.cs:28-76 | valid iff: name of 3..100 not all white space; description of at most 500 if any; Binary or Messurable type with a compatible unit; declared frequency type; positive counts; end date after today if any; positive milestone target only when a milestone is present |
| CreateHabitDtoValidation.CompatibleUnitIsAllowed | DevHabit/src/DevHabit.Api/DTOs/Habits/CreateHabitDtoValidation.cs:9-88 | a compatible unit is on the allowed list, since the binary list is inside it |
| CreateHabitDtoValidation.AllowedUnitIsNotBlank | DevHabit/src/DevHabit.Api/DTOs/Habits/CreateHabitDtoValidation.cs:9-60 | an allowed unit is never blank, so its NotEmpty check passes |
| CreateHabitDtoValidation.UnitCaseIgnored | DevHabit/src/DevHabit.Api/DTOs/Habits/CreateHabitDtoValidation.cs:57-80 | units differing only in case validate alike |
| CreateHabitDtoValidation.EndDateChecked | DevHabit/src/DevHabit.Api/DTOs/Habits/CreateHabitDtoValidation.cs:62-64 | the EndDate rule fails iff an end date is given and is not after today |
| CreateHabitDtoValidation.EndDateMustBeInTheFuture | DevHabit/src/DevHabit.Api/DTOs/Habits/CreateHabitDtoValidation.cs:62-64 | today as the end date fails the EndDate rule; tomorrow passes it |
| CreateHabitDtoValidation.EmptyNameFailures | DevHabit/src/DevHabit.Api/DTOs/Habits/CreateHabitDtoValidation.cs:30-34 | "" fails NotEmpty and MinimumLength(3); "   " fails NotEmpty only |
| CreateHabitDtoValidation.RulesOfName | DevHabit/src/DevHabit.Api/DTOs/Habits/CreateHabitDtoValidation.cs:30-34 | the Name failures are exactly the failures of the Name rule's three checks, in order |
| CreateTagDtoValidator.ValidTag | DevHabit/src/DevHabit.Api/DTOs/Tags/CreateTagDtoValidator.cs:7-18 | valid iff the name is not all white space and 3..50 long and the description, if any, is at most 50 long |
| CreateTagDtoValidator.EmptyNameRejected | DevHabit/src/DevHabit.Api/DTOs/Tags/CreateTagDtoValidator.cs:9-13 | an empty name fails both Name checks |
| CreateTagDtoValidator.NameLengthBoundaries | DevHabit/src/DevHabit.Api/DTOs/Tags/CreateTagDtoValidator.cs:12-13 | lengths 3 and 50 pass the length check; 2 and 51 fail it |
| HabitMappings.ToEntity | DevHabit/src/DevHabit.Api/DTOs/Habits/HabitMappings.cs:7-64 | a new habit whose view carries the DTO's name, description, type, frequency, target and end date; id "h_"+guid; OnGoing, unarchived, created now, never updated or completed; a milestone iff the DTO has one, with its target and current 0 |
| HabitMappings.UpdateFromDto | DevHabit/src/DevHabit.Api/DTOs/Habits/HabitMappings.cs:66-89 | overwrites the editable fields and stamps UpdatedAtUtc; id, status, archive flag, creation and completion times stay; a DTO milestone sets the target of the existing milestone (current kept) or of a new one (current 0); none leaves it untouched |
| HabitMappings.ToDtoCopies | DevHabit/src/DevHabit.Api/DTOs/Habits/HabitMappings.cs:36-64 | every field is copied into the view; the milestone is absent iff the habit has none, and otherwise carries its target and current value |
| TagMappings.ToDtoCopies | DevHabit/src/DevHabit.Api/DTOs/Tags/TagMappings.cs:7-15 | the id, name, description and both time stamps are copied into the view |
| TagMappings.ToEntity | DevHabit/src/DevHabit.Api/DTOs/Tags/TagMappings.cs:7-25 | a new tag of the user with id "t_"+guid, the DTO's name and description, created now and not updated, as its DTO view shows |
| TagMappings.UpdateFromDto | DevHabit/src/DevHabit.Api/DTOs/Tags/TagMappings.cs:27-32 | only the name, description and UpdatedAtUtc change |
| InMemoryETagStore.ToHexString | DevHabit/src/DevHabit.Api/Services/InMemoryETagStore.cs:24 | two upper-case hex digits per byte |
| InMemoryETagStore.HexRoundTrip | DevHabit/src/DevHabit.Api/Services/InMemoryETagStore.cs:24 | the hex spelling reads back as the bytes |
| InMemoryETagStore.HexInjective | DevHabit/src/DevHabit.Api/Services/InMemoryETagStore.cs:24 | different digests have different spellings |
| InMemoryETagStore.GenerateETag | DevHabit/src/DevHabit.Api/Services/InMemoryETagStore.cs:19-25 | a tag is 128 upper-case hex digits |
| InMemoryETagStore.ETagIsDigest | DevHabit/src/DevHabit.Api/Services/InMemoryETagStore.cs:19-25 | two resources get the same tag iff their serialised contents have the same digest, so equal content gives an equal tag |
| InMemoryETagStore.InMemoryETagStore.GetETag | DevHabit/src/DevHabit.Api/Services/InMemoryETagStore.cs:12 | the stored tag, or "" recorded for an unknown URI; an existing entry never changes |
| InMemoryETagStore.InMemoryETagStore.SetETag | DevHabit/src/DevHabit.Api/Services/InMemoryETagStore.cs:14-15 | the URI's entry becomes the resource's tag whatever was there; no other entry changes |
| InMemoryETagStore.InMemoryETagStore.RemoveETag | DevHabit/src/DevHabit.Api/Services/InMemoryETagStore.cs:17 | the URI's entry is gone, so its tag reads as ""; no other entry changes; an absent URI is a no-op |
| ValidationExceptionHandler.GroupKeys | DevHabit/src/DevHabit.Api/Middlewares/ValidationExceptionHandler.cs:31 | each property name once, exactly those that occur |
| ValidationExceptionHandler.GroupBy | DevHabit/src/DevHabit.Api/Middlewares/ValidationExceptionHandler.cs:30-34 | one group per key, holding that property's messages |
| ValidationExceptionHandler.AddGroupsFails | DevHabit/src/DevHabit.Api/Middlewares/ValidationExceptionHandler.cs:32-34 | ToDictionary throws iff two lower-cased keys collide |
| ValidationExceptionHandler.AddGroupsValue | DevHabit/src/DevHabit.Api/Middlewares/ValidationExceptionHandler.cs:32-34 | otherwise every group is stored under its lower-cased key |
| ValidationExceptionHandler.ErrorDictionaryFails | DevHabit/src/DevHabit.Api/Middlewares/ValidationExceptionHandler.cs:31-33 | the dictionary fails iff two different property names have the same lower-case form, that is, iff two different names are equal ignoring case |
| ValidationExceptionHandler.ClashingNames | DevHabit/src/DevHabit.Api/Middlewares/ValidationExceptionHandler.cs:31-33 | colliding dictionary keys come from two different property names with the same lower-case form |
| ValidationExceptionHandler.ClashingKeys | DevHabit/src/DevHabit.Api/Middlewares/ValidationExceptionHandler.cs:31-33 | two different property names with the same lower-case form give colliding dictionary keys |
| ValidationExceptionHandler.ErrorDictionaryContents | DevHabit/src/DevHabit.Api/Middlewares/ValidationExceptionHandler.cs:30-34 | keys are exactly the lower-cased property names, each in lower case; each maps to all of that property's messages in order |
| ValidationExceptionHandler.MessagesOfAppend | DevHabit/src/DevHabit.Api/Middlewares/ValidationExceptionHandler.cs:34 | a property's messages keep the order of the failures |
| ValidationExceptionHandler.GroupsHoldEveryMessage | DevHabit/src/DevHabit.Api/Middlewares/ValidationExceptionHandler.cs:30-34 | the groups hold as many messages as there are failures |
| ValidationExceptionHandler.ProblemFor | DevHabit/src/DevHabit.Api/Middlewares/ValidationExceptionHandler.cs:22-36 | the problem details have status 400 and carry the errors |
| ValidationExceptionHandler.TryHandle | DevHabit/src/DevHabit.Api/Middlewares/ValidationExceptionHandler.cs:9-39 | another exception is not handled and the response is untouched; a validation exception sets 400, then either throws on a key collision or produces the details and returns the writer's answer |
| Text.Trim | DevHabit/src/DevHabit.Api/Extensions/QueryableExtensions.cs:18 | empty exactly for a blank string; otherwise the result starts and ends with a non-white-space character |
| Text.Split | DevHabit/src/DevHabit.Api/Extensions/QueryableExtensions.cs:17 | at least one part; no part contains the separator; a single part, the string, iff the separator is absent |
| Text.JoinSplit | DevHabit/src/DevHabit.Api/Extensions/QueryableExtensions.cs:17-39 | joining a split with its separator gives the string back |
| Text.SplitJoin | DevHabit/src/DevHabit.Api/Extensions/QueryableExtensions.cs:39 | splitting a join of separator-free parts gives the parts back |
| Text.EqualsIgnoreCaseLower | DevHabit/src/DevHabit.Api/Middlewares/ValidationExceptionHandler.cs:33 | ordinal case-insensitive equality is equality of the lower-case forms |

## Left out

- Case mapping covers the ASCII letters only. ToLowerInvariant and OrdinalIgnoreCase on other letters of Unicode are not modelled.
- A string is a sequence of Unicode scalar values, not of UTF-16 code units. Length rules on characters outside the basic plane count one where .NET counts two.
- The query engines are not modelled: EF Core and Dynamic LINQ translation, and PostgreSQL's handling of a negative OFFSET. Skip and Take follow LINQ to Objects, where a negative count is treated as zero.
- The ordering among jobs with equal CreatedAtUtc is stable (table order) in the model; the database does not promise one.
- Quartz scheduling and the copy of the uploaded stream in CreateImportJob are left out (I/O).
- EntryImportsController.cs:45 calls the validator and discards its result. The model follows the code and does not validate there.
- The job columns that ProjectToDto does not show are not modelled, and a DTO holds the whole job record.
- HasNextPage and HasPreviousPage are functions given to the controller, since PaginationResult is not part of this model.
- Link hrefs come from LinkGenerator; a link is its endpoint name, rel, method and route values.
- The enum declarations are not part of this model. HabitType, HabitStatus, FrequencyType and EntryImportStatus have the members the code names plus an "other value" case carrying a declared flag where IsInEnum needs it.
- The CreateHabitDto and UpdateHabitDto shapes come from their use in the mappings and the validator.
- Validator messages and FluentValidation's cascade settings are not modelled: every check runs and a failure is its property and check kind.
- The dictionaries are static and concurrent in the code (DataShapingTool.cs:10, InMemoryETagStore.cs:10). The model holds each in one sequential object.
- Reflection is a function from type to its ordered public property names, and an entity a list of (name, value) pairs.
- DateTime.UtcNow, Guid.CreateVersion7, SHA-512, JsonConvert and Encoding.UTF8 are parameters.
- HabitTagsController.NewLinks: one clock reading stamps every new link, while HabitTagsController.cs:43-48 reads DateTime.UtcNow once per link as AddRange enumerates; links added in one call may differ in CreatedAtUtc by the time the enumeration takes.
- The JSON order of the "errors" dictionary's keys is not modelled (a map); the ProblemDetails writer's effect on the response is its boolean answer.

## Findings

| source | as written | input that shows it | evidently intended | confidence | as-written member | corrected member |
|---|---|---|---|---|---|---|
| DevHabit/src/DevHabit.Api/Controllers/EntryImportsController.cs:108 | `Skip((page - 1) * pageSize)` is computed in unchecked 32-bit arithmetic | page = 3, pageSize = 1073741824: the offset wraps to -2147483648; a negative skip is treated as zero by LINQ to Objects, so page 1 is returned in place of page 3 (a database provider may reject the negative OFFSET instead) | skip (page - 1) * pageSize jobs, without wrap-around | not executed | EntryImportsController.OffsetOverflowShowsFirstPage | EntryImportsController.PageWindow |

GetImportJobs and PageOf follow the code as written (`Window`, on the wrapped offset). `IntendedWindow` is the corrected page that `PageWindow` describes. `WindowAsIntended` proves that the two agree whenever the offset fits in 32 bits.
