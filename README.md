# communotes formulas: a verified model

This project models the `formulas` application of communotes, a Django REST
backend where students share photos of exam formulas. Each photo belongs to a
subject and an exam number (a *classification*). A photo may also have a
context: its formula type and professor. Photos carry tags, and other users
review them with stars. In the model the database is an in-memory snapshot,
`Models.DbState`. It holds one map from primary key to row per table
(subjects, classifications, contexts, tags, photos, reviews, profiles), the
set of stored file paths, and the next free primary key. `Models.Consistent`
collects the invariants the stored data keeps. Most are the database's own
constraints:

- unique subject and tag names;
- the varchar widths: 80 characters for a subject name, 60 for a tag name,
  120 for a photo name, 60 for a professor and 80 for a career name;
- a unique (subject, exam_number) pair;
- one-to-one photo contexts;
- a unique (photo, user) pair per review;
- one profile per user;
- valid foreign keys and fresh keys.

The others come from the model's validators and choices, which Django checks
during validation and the database never does: exam numbers in 1..6, stars
in 1..5, and formula types drawn from the four codes or blank. Every write
path in the model establishes them all.

`Store.Store` is the database as an object. Its single field `db` is updated
by ORM-level methods: insert, update, delete, tag attachment and file
storage. Each method states its exact new state, and `Valid()` is
`Consistent(db)`.

The imperative parts of the source are methods on a `Store`:

- field deserialisation (`ToInternalValue`, `ValidatePhoto`);
- `PhotoSerializer.create` and `update`;
- the view actions.

Each method is proved equal to a specification function on snapshots, as
in `ensures (store.db, id) == PhotoCreated(old(store.db), d, actor)`. The
properties the source promises are then proved about those functions as lemmas. Pure code
becomes functions and lemmas. This includes the slug check, the upload path,
the search query string and the filter sets.

Validation changes the store. Subjects and tags are created by get-or-create
while the request's fields are being deserialised. A request that fails later
(an exam number out of range, say) still leaves them behind, and every
validation function says so.

Behaviours taken from the code that a reader might not expect:

- **A non-owner's write is refused before validation.** The object permission
  is checked when the row is fetched, so a refused request creates nothing.
- **One review per photo is only translated on create.** `ReviewList.create`
  turns the (photo, user) constraint violation into a 400 with
  `non_field_errors`. `ReviewDetail` has no such handler. Moving a review onto
  a photo its author has already reviewed therefore fails as a server error
  (`Error.ServerError`), and nothing is written.
- **A missing profile is a server error.** `ProfileDetail.get_object` reads
  `request.user.profile`, which raises when the user has no profile.
- **Filters reject unknown values.** Every filter is an "all values" filter.
  A value that the column holds nowhere in its table makes the request a 400
  naming that filter; it is not treated as an empty result.
- **A name the database refuses is a server error.** Subject and tag values
  go straight to get-or-create with no length check. A new name longer than
  its column, or a null tag item, makes the insert fail. That error is not a
  validation error, so the request ends in a 500 (`Error.ServerError`).
  Subjects and tags created earlier in the same request stay. A tag item
  that is not a string is looked up by its string form.
- **A whitespace-only search term is truthy in Python.** It still applies the
  text filter, with the empty query, and `QueryViews.SearchQueryEmpty` shows
  that the query is then empty.
- **Search words are quoted without escaping.** Each word becomes `'w'`, and
  the query goes to `to_tsquery` unchanged. A word holding a quote or a
  backslash is read differently by tsquery, or not at all: `it's` gives
  `'it's'`, a syntax error the view does not catch, so the request ends in a
  500. `QueryViews.SearchResults` answers `Error.ServerError` whenever the
  database refuses the query.

## Model

| member | source | states |
|---|---|---|
| Models.FormulaTypeCodesRoundTrip | formulas/models.py:45-56 | each of the four choices F1, FM, FE, FG parses back to itself and is an allowed `formula_type`; no two choices share a code |
| Models.ParseFormulaType | formulas/models.py:45-50 | a parsed code is the code of the returned choice; a code no choice has parses to None |
| Models.NatToStringRoundTrip | formulas/models.py:63 | the decimal rendering of a user id reads back to that id |
| Models.UserPhotosDirectoryPathInjective | formulas/models.py:62-63 | two upload paths are equal only for the same owner and the same file name, so users' directories never collide |
| Models.EmptyDbConsistent | formulas/models.py:10-113 | the empty database satisfies every declared constraint |
| Store.FindName | formulas/serializer_extra_fields.py:18 | the lookup half of get-or-create: a found row carries the name; nothing is found exactly when no row has it |
| Store.GetOrCreateName | formulas/serializer_extra_fields.py:18 | the returned row carries the name; only the named table and the key counter can change; an existing name changes nothing |
| Store.GetOrCreateNameFrame | formulas/serializer_extra_fields.py:18 | existing rows are never modified and at most the returned row is added |
| Store.GetOrCreateNameEffect | formulas/models.py:16-17 | for a name that fits its column, the constraints still hold, the returned row is the only one with the name, and a row is added exactly when none existed |
| Store.GetOrCreateNameIdempotent | formulas/serializer_extra_fields.py:18 | resolving the same name again returns the same row and changes nothing |
| Store.FindClassification | formulas/serializers.py:71-73 | a found classification has the (subject, exam_number) pair; none is found exactly when no row has it |
| Store.GetOrCreateClassification | formulas/serializers.py:68-73 | returns an existing row with the pair and adds nothing, or adds exactly one row under the next key |
| Store.GetOrCreateClassificationEffect | formulas/models.py:34-40 | constraints still hold and the returned row is the only one with that subject and exam number |
| Store.GetOrCreateClassificationIdempotent | formulas/serializers.py:68-73 | a second get-or-create of the pair returns the same row and changes nothing |
| Store.FindProfile | formulas/views.py:138-139 | a found profile belongs to the user; none is found exactly when the user has no profile |
| Store.CascadeReviews | formulas/models.py:96-100 | deleting a photo keeps exactly the reviews of other photos, each unchanged (on_delete CASCADE) |
| Store.CascadeReviewsRefs | formulas/models.py:96-100 | when every review points at an existing photo, the kept reviews point at the remaining photos and every dropped review was of the deleted photo |
| Store.NextContextFree | formulas/models.py:77-82 | a context created now is not yet linked to any photo |
| Store.AddPhotoConsistent | formulas/models.py:65-88 | inserting a photo with valid references, a name of at most 120 characters and an unlinked context keeps every constraint |
| Store.SetPhotoConsistent | formulas/models.py:65-82 | saving a photo whose name fits its column and whose context no other photo uses keeps every constraint |
| Store.RemovePhotoConsistent | formulas/models.py:96-100 | deleting a photo together with its reviews keeps every constraint |
| Store.AddReviewConsistent | formulas/models.py:107-113 | a new review with stars in range, for an existing photo and by a user who has not reviewed it, keeps every constraint |
| Store.SetReviewConsistent | formulas/models.py:107-113 | saving a review that no other review of the same user and photo duplicates keeps every constraint |
| Store.RemoveReviewConsistent | formulas/models.py:90-113 | deleting a review keeps every constraint |
| Store.Store.InsertReview | formulas/models.py:107-113 | the database refuses a second review of the same photo by the same user, and changes nothing then; otherwise exactly one row is added |
| Store.Store.UpdateReview | formulas/models.py:107-113 | the save is refused, with nothing written, exactly when another review has the same photo and user |
| Store.Store.DeletePhoto | formulas/models.py:96-100 | the photo row and, by cascade, its reviews are removed; nothing else changes |
| Store.Store.AddPhotoTags | formulas/serializers.py:123 | `tags.add`: the photo's tag set grows by the given tags and nothing else changes |
| ExtraFields.Screen | formulas/serializer_extra_fields.py:16-17 | validation passes exactly when every validator accepts; otherwise the verdict is that of the first validator that does not accept, all earlier ones having accepted |
| ExtraFields.Resolve | formulas/serializer_extra_fields.py:14-21 | a value resolves exactly when every validator accepts it, it is not null, and its string form is either taken already or fits the column; a validator's ValidationError propagates as Rejected and a TypeError becomes Invalid; anything else the database refuses (DatabaseError); a failure leaves the database unchanged; the resolved row's slug is the value's string form; only the field's own table and the key counter change |
| ExtraFields.ResolveStorable | formulas/serializer_extra_fields.py:18 | in a consistent database, an accepted value resolves exactly when it is non-null and fits its column, and the database refuses it exactly otherwise |
| ExtraFields.ResolveFrame | formulas/serializer_extra_fields.py:18 | existing rows are never modified, and at most the resolved row is added |
| ExtraFields.ResolveEffect | formulas/serializer_extra_fields.py:18 | the constraints hold afterwards, and the resolved row is the only one with its name |
| ExtraFields.ResolveIdempotent | formulas/serializer_extra_fields.py:18 | resolving the same value twice returns the same row and leaves the database as the first call left it |
| ExtraFields.SlugGetOrCreateRelatedField.constructor | formulas/serializer_extra_fields.py:7-12 | no validator list, or an empty one, gives the field no validators |
| ExtraFields.SlugGetOrCreateRelatedField.ToInternalValue | formulas/serializer_extra_fields.py:14-21 | runs the validators in order, stopping at the first that rejects or faults, then does get-or-create by name, which the database refuses for a null or over-long new name; proved equal to `Resolve` |
| Serializers.MatchesSlugIff | formulas/serializers.py:42-43 | `re.match(slug_re, s)` succeeds exactly when s is non-empty and every character is a letter, digit, `_` or `-` |
| Serializers.ValidateSubjectSlug | formulas/serializers.py:42-48 | accepts exactly the non-empty slugs, rejects any other string, and faults on a value that is not a string |
| Serializers.CleanChar | formulas/serializers.py:95-103 | a CharField value is cleaned to its stripped form; it is refused when required and missing, blank where blank is not allowed, or too long |
| Serializers.CleanBoundedInt | formulas/models.py:30-32 | an integer field accepts exactly an integer within the model's validator range |
| Serializers.CleanFormulaType | formulas/models.py:52-56 | `formula_type` accepts exactly blank or one of the four codes |
| Serializers.ValidateClassificationEffect | formulas/serializers.py:51-66 | a server error, with nothing written, exactly when the subject is a new slug longer than 80; otherwise a slug subject is present afterwards even when `exam_number` fails, and `exam_number` is reported exactly when missing, not an integer or outside 1..6; accepted data names an existing subject with the submitted name and the submitted exam number |
| Serializers.ValidateClassificationFrame | formulas/serializers.py:53-58 | validating a classification never modifies an existing subject and keeps keys fresh |
| Serializers.ValidateClassificationConsistent | formulas/serializers.py:53-58 | validating a classification keeps every constraint |
| Serializers.ValidateContext | formulas/serializers.py:76-83 | `formula_type` is reported exactly when it is not a choice, `professor` exactly when longer than 60 after stripping; accepted data holds a valid choice and a professor that fits its column |
| Serializers.ResolveTagsSucceeds | formulas/serializers.py:98-100 | in a consistent database, the tag list resolves exactly when every item is non-null and its string form fits the 60-character column; otherwise the database refuses an item |
| Serializers.ResolveTagsStopped | formulas/serializers.py:98-100 | once an item fails, the items after it are not resolved and change nothing |
| Serializers.ResolveTagsFrame | formulas/serializers.py:98-100 | resolving tags never modifies an existing tag and keeps keys fresh |
| Serializers.ResolveTagsConsistent | formulas/serializers.py:98-100 | resolving tags keeps every constraint |
| Serializers.ResolveTagsNames | formulas/serializers.py:98-100 | the resolved tag rows carry exactly the submitted names |
| Serializers.ResolveTagsLeavesRows | formulas/serializers.py:98-100 | every tag name before the first item the database refuses stays in the table |
| Serializers.ValidatePhotoRejection | formulas/serializers.py:95-103 | a rejected photo payload is a server error or a ValidationError naming at least one field |
| Serializers.ValidatePhotoAborts | formulas/serializers.py:98-102 | in a consistent database, photo validation is a server error exactly when the subject is a slug longer than 80 or some tag item is null or longer than 60 |
| Serializers.ValidatePhotoAdmissible | formulas/serializers.py:95-103 | accepted photo data references existing rows with values in range and a name of at most 120 characters, and on a full save has name and both classification keys |
| Serializers.ValidatePhotoFrame | formulas/serializers.py:98-102 | photo validation never modifies an existing subject or tag |
| Serializers.ValidatePhotoConsistent | formulas/serializers.py:98-102 | photo validation keeps every constraint |
| Serializers.ValidatePhotoLeavesSubject | formulas/serializers.py:102 | a slug subject of at most 80 characters submitted in a photo's classification exists afterwards however the rest of the payload fares |
| Serializers.ValidatePhoto | formulas/serializers.py:95-103 | fields deserialised in declared order with the store changes they make; proved equal to `ValidatePhotoSpec` |
| Serializers.PhotoCreatedRow | formulas/serializers.py:105-125 | `create` adds exactly one photo, under a fresh key: the owner is the acting user; name, description and tags are the supplied ones (no tags when none supplied); its classification has the supplied subject and exam number |
| Serializers.PhotoCreatedTables | formulas/serializers.py:110-123 | the classification table becomes the get-or-create of the pair; a context row is created exactly when a descriptor is present; subjects and tags are untouched |
| Serializers.CreatedRowInsertable | formulas/serializers.py:105-122 | the row `create` builds references existing rows and an unlinked context, and its name fits the column |
| Serializers.PhotoCreate | formulas/serializers.py:105-125 | the steps of `create` in source order; proved equal to `PhotoCreated` |
| Serializers.UpdatedClassification | formulas/serializers.py:136-147 | the update's classification is a row of the table, and only that table and the key counter change |
| Serializers.UpdatedContext | formulas/serializers.py:149-162 | the update's context is a row of the table, and only that table and the key counter change |
| Serializers.SavedPhoto | formulas/serializers.py:132-134 | the final save changes only the photo and the stored files; without a new file the row keeps its file |
| Serializers.PhotoUpdatedSteps | formulas/serializers.py:127-168 | the update is the file step, then the classification step, then the context step, then the save |
| Serializers.PhotoUpdatedRow | formulas/serializers.py:129-130 | the update keeps every other photo, the owner, and the name and description when absent; a supplied tag list replaces the set, an absent one keeps it |
| Serializers.PhotoUpdatedClassification | formulas/serializers.py:136-147 | a non-empty descriptor gives the get-or-create of the current pair overridden by the supplied keys; an absent or empty one keeps the classification |
| Serializers.PhotoUpdatedContextAndFile | formulas/serializers.py:132-134 | an existing context is changed in place with its id kept and unspecified fields kept; without one a new row is created and linked; a supplied file deletes the old one before the new one is stored under the owner's directory |
| Serializers.UpdatedRowSavable | formulas/serializers.py:127-167 | the row the update saves references existing rows and a context no other photo uses, and its name fits the column |
| Serializers.PhotoUpdate | formulas/serializers.py:127-168 | the steps of `update` in source order; proved equal to `PhotoUpdated` |
| Serializers.CleanUniqueName | formulas/models.py:16-17 | a name is accepted exactly when stripped, non-empty, short enough, not already taken, and (for subjects) a slug |
| Serializers.ValidateReviewFields | formulas/models.py:92-100 | `stars` is reported exactly when missing (and required), not an integer, or outside 1..5; `photo` exactly when missing (and required), not a key, or not an existing photo |
| Serializers.ValidateReview | formulas/serializers.py:190-196 | a review naming a photo of the acting user is rejected with the non-field message "Photo owner cannot make a review", and only then; a payload without `photo` skips the check |
| Serializers.CleanCareerName | formulas/models.py:14 | a career name is cleaned to its stripped form and refused only when longer than 80 |
| Views.PhotoListCreated | formulas/views.py:60-61 | a rejected photo is a server error or a ValidationError naming a field, and changes only the subject and tag tables |
| Views.PhotoListCreatedOwner | formulas/views.py:60-61 | a created photo is new, the only photo added, and owned by the acting user whatever the payload says |
| Views.PhotoDetailRetrieve | formulas/tests/enity_tests/photo_tests.py:112-132 | anyone may read a photo; a missing one is NotFound |
| Views.PhotoDetailUpdated | formulas/views.py:70-73 | a missing photo is NotFound and a non-owner's update is Forbidden, both with the database unchanged; a successful update is by the owner; a rejected one changes only subjects and tags |
| Views.PhotoDetailDestroyed | formulas/views.py:75-77 | a non-owner's delete is Forbidden with nothing changed; the owner's delete removes the photo, its reviews and its stored file, and nothing else |
| Views.ReviewListCreated | formulas/views.py:156-166 | a second review of a photo by the same user is a 400 with `non_field_errors` "an user can only make one review per photo" and no new row; otherwise the new row's reviewer is the acting user |
| Views.ReviewListCreatedConsistent | formulas/models.py:107-113 | creating a review keeps every constraint, so no two reviews share (photo, user) |
| Views.ReviewDetailRetrieve | formulas/views.py:175-178 | anyone may read a review; a missing one is NotFound |
| Views.ReviewDetailUpdated | formulas/views.py:170-178 | a non-owner's update is Forbidden; a saved review keeps its reviewer and duplicates no other; a duplicate (photo, user) is a server error with nothing written |
| Views.ReviewDetailDestroyed | formulas/views.py:175-178 | a non-owner's delete is Forbidden; the owner's removes exactly that review |
| Views.ProfileDetailGetObject | formulas/views.py:138-139 | the profile returned belongs to the acting user; a user without one gets a server error |
| Views.ProfileDetailGetObjectOwn | formulas/tests/enity_tests/profile_tests.py:20-25 | with one profile per user, the endpoint returns the acting user's own profile |
| Views.ProfileDetailRetrieve | formulas/views.py:129-139 | the profile read is the acting user's |
| Views.ProfileDetailUpdated | formulas/serializers.py:22-30 | an update changes only the acting user's profile, keeps its user, and sets the cleaned career name when one is supplied |
| Views.NameListCreated | formulas/views.py:182-217 | posting a subject or tag name adds exactly one row with the stripped name under the next key; a taken name is a 400 on `name` |
| Views.ClassificationListCreated | formulas/serializers.py:68-73 | a rejected classification is a server error or a ValidationError naming a field; a created one has the submitted subject name and an exam number in range |
| Views.ContextListCreated | formulas/views.py:107-114 | a created context has the submitted formula type (or blank) and stripped professor; anything else changes nothing |
| Text.WordsOfJoin | formulas/query_views.py:37 | splitting words joined by a space gives back those words |
| Text.WordsEmpty | formulas/query_views.py:36-37 | `split()` gives no words exactly when the string is all whitespace |
| QueryViews.QuoteAll | formulas/query_views.py:38 | one quoted token per word, in order |
| QueryViews.QuoteReadsBack | formulas/query_views.py:38 | under tsquery's quoting rules (backslash escapes, doubled quotes, a single quote closes) a quoted word reads back as itself exactly when it holds no quote and no backslash |
| QueryViews.SearchQueryRoundTrip | formulas/query_views.py:37-39 | the raw query is `'w1' & 'w2' & … & 'wn'`, and tsquery's quoting reads it back into exactly the words of the term precisely when no word holds a quote or a backslash |
| QueryViews.ApostropheNotReadBack | formulas/query_views.py:38 | the term `it's` becomes the raw query `'it's'`, which does not read back as that word |
| QueryViews.SearchQueryEmpty | formulas/query_views.py:35-39 | the raw query is empty exactly when the term is whitespace only |
| QueryViews.SearchResults | formulas/query_views.py:24-45 | a 500 exactly when the search applies and the database refuses the raw query; otherwise every listed photo has the path's subject name, and the path's exam number when one is given |
| QueryViews.SearchNarrows | formulas/query_views.py:41-43 | the text search only narrows the subject and exam filtered set; without a search term nothing is dropped and nothing fails |
| QueryViews.SearchListsMatch | formulas/query_views.py:24-45 | a term of words without quotes or backslashes never fails on a database that accepts such conjunctions, and every photo of the path that matches the query is listed |
| QueryViews.GetQueryset | formulas/query_views.py:24-45 | builds the lookups incrementally and narrows by the text filter when the term is non-empty, failing when the database refuses the query; proved equal to `SearchResults` |
| CustomFilters.ChoiceError | formulas/custom_filters.py:9-15 | an "all values" filter reports its name exactly when a given value is not held by its column |
| CustomFilters.TagChoicesHold | formulas/custom_filters.py:39 | every tag name a photo carries is an accepted `tag` value |
| CustomFilters.ConjoinedTagsAll | formulas/custom_filters.py:39 | repeated `tag` values are AND-combined: a photo is kept exactly when it carries every given name |
| CustomFilters.PhotoFilterErrors | formulas/custom_filters.py:25-53 | each filter is named in the 400 exactly when its value is not held by its column |
| CustomFilters.PhotoFilteredMatches | formulas/custom_filters.py:25-53 | chaining the filters keeps exactly the photos with the subject, exam number, classification, every tag and owner given |
| CustomFilters.PhotoFilter | formulas/custom_filters.py:25-53 | a 400 exactly when some value is not held by its column; otherwise exactly the photos meeting every given filter |
| CustomFilters.PhotoFilterListsMatch | formulas/custom_filters.py:25-53 | a value some photo matches is always accepted, and that photo is listed |
| CustomFilters.PhotoFilterTagsAsSet | formulas/custom_filters.py:39 | the order and repetition of `tag` values do not change the result |
| CustomFilters.PhotoClassificationFilter | formulas/custom_filters.py:7-22 | a 400 naming `subject` or `exam_number` exactly for a value no classification has; otherwise exactly the classifications with that subject name and exam number |
| CustomFilters.PhotoClassificationFilterListsMatch | formulas/custom_filters.py:7-22 | values some classification meets are always accepted, and that classification is listed |
| CustomFilters.ReviewFilter | formulas/custom_filters.py:55-65 | a 400 for a photo no review is about; otherwise exactly the reviews of that photo, never none when a photo is given |

## Left out

- Authentication (JWT, djoser) and the 401 returned to anonymous clients: the acting user is a parameter of every view.
- Pagination, ordering (`ordering_fields`), the `$name`/`$description` search backend on list views, URL routing, OpenAPI documentation, signals and timestamps: framework plumbing with no rule of the application in it.
- Concurrency: the model is sequential. Two simultaneous get-or-creates or duplicate reviews are not modelled; the constraint check is a sequential test.
- File storage: a file is its storage path. Backend renaming of clashing names, its truncation of a path to the `file` column's default width of 100, and image decoding are not modelled. `HybridImageField` is not part of this model; an uploaded file is taken as given.
- The intermediate save that `FieldFile.delete` makes when an update replaces a file: the final save overwrites it, so only its effect on storage is kept.
- `custom_permissions.py` is not part of this model: the rule is the one the photo tests exercise. Safe methods are allowed to anyone; writes are allowed to the owner only.
- Read-only endpoints (`SubjectDetail`, `TagDetail`, `PhotoContextDetail`, `PhotoClassificationDetail`, the list GETs): a lookup by key with no rule of their own. `Views.PhotoDetailRetrieve` and `Views.ReviewDetailRetrieve` stand for them.
- Full-text matching: whether PostgreSQL's `to_tsquery` accepts a raw query, and whether a photo's `search_vector` matches it, are parameters (`QueryViews.TextSearch`). Only the query string is concrete. A word with a quote or a backslash can make the database refuse the query, which ends the request in a 500; the model states when the raw query reads back, not which malformed queries PostgreSQL refuses.
- QueryViews.ParseSearchQuery: reads only conjunctions of whole quoted lexemes. Weight and prefix markers after a lexeme (`'w':*`), which tsquery also accepts, read as no conjunction, and the lexemes are not normalised by the English text search configuration.
- Serializer input of a type other than the modelled ones: a char field given a non-string, for instance. Integer fields distinguish an integer from anything else. A related field's value is a string, a value converted to a string, or null.
- ExtraFields.Resolve: a name holding a NUL character is not modelled. PostgreSQL's driver refuses it with a ValueError, which the field reports as "invalid".
- CustomFilters.PhotoFilter, CustomFilters.PhotoClassificationFilter, CustomFilters.ReviewFilter: filter values are compared as typed values, not through their string forms; "007" for a key is not modelled.
- CustomFilters.PhotoFilter, CustomFilters.PhotoClassificationFilter, CustomFilters.ReviewFilter: django-filter's "null" sentinel (a value `null` filtering for a missing relation) is not modelled; a subject or tag literally named `null` is treated as a name.
- CustomFilters.ConjoinedTags: iterates the submitted values in order rather than over `set(value)`; `CustomFilters.PhotoFilterTagsAsSet` shows that the result is the same.
- Subject and tag names that differ only in case: the model compares names exactly, as the database's default collation is taken to do.
