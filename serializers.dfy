/**
 * The serializers of the formulas app: field-by-field validation of the
 * submitted payloads (which resolves, and may create, subjects and tags),
 * the subject slug check, and the create/update logic of the photo
 * serializer with its merge semantics.
 *
 * Validation follows the framework's rules: fields run in their declared
 * order and every field runs even when an earlier one failed; errors are
 * collected under the field's dotted path; on a partial update (PATCH) an
 * absent field is skipped instead of being required.
 */
module Serializers {
  import opened Outcomes
  import opened Text
  import opened Models
  import opened Store
  import opened ExtraFields

  // ----- the subject slug check -----

  predicate IsSlugChar(c: char) {
    c == '-' || c == '_' || 'a' <= c <= 'z' || 'A' <= c <= 'Z' || '0' <= c <= '9'
  }

  /** Matching `^[-a-zA-Z0-9_]+\Z` from the start: one slug character, then either the end or another match. */
  function MatchesSlug(s: string): bool {
    |s| > 0 && IsSlugChar(s[0]) && (|s| == 1 || MatchesSlug(s[1..]))
  }

  /** The pattern accepts exactly the non-empty strings of slug characters. */
  lemma {:induction false} MatchesSlugIff(s: string)
    ensures MatchesSlug(s) <==> |s| > 0 && forall i :: 0 <= i < |s| ==> IsSlugChar(s[i])
  {
    if |s| > 1 {
      MatchesSlugIff(s[1..]);
      assert forall i :: 1 <= i < |s| ==> s[i] == s[1..][i - 1];
    }
  }

  /**
   * `validate_subject_slug`: a ValidationError unless the name is a slug;
   * matching anything but a string raises TypeError. (A null subject is
   * refused by the field before its validators run, with the same outcome:
   * an error on `subject` and nothing written.)
   */
  function ValidateSubjectSlug(value: RawValue): (c: Check)
    ensures c == Accept <==> value.Text? && |value.s| > 0 && forall i :: 0 <= i < |value.s| ==> IsSlugChar(value.s[i])
    ensures c == Reject <==> value.Text? && c != Accept
    ensures c == Fault <==> !value.Text?
  {
    match value
    case Text(s) => MatchesSlugIff(s); if MatchesSlug(s) then Accept else Reject
    case _ => Fault
  }

  /** The internal validators of the classification's `subject` field. */
  const SubjectValidators: seq<Validator> := [ValidateSubjectSlug]

  // ----- field cleaning -----

  /** What one field's validation yields: skipped (absent and not required), a clean value, or an error. */
  datatype Cleaned<+T> = Omitted | Clean(value: T) | Failed {
    function ToOption(): Option<T> {
      if Clean? then Some(value) else None
    }
  }

  /** The error path a field contributes: its own name when it failed. */
  function ErrorIf<T>(field: string, c: Cleaned<T>): set<string> {
    if c.Failed? then {field} else {}
  }

  /**
   * A character field: the submitted text is stripped of surrounding
   * whitespace, then refused when blank (unless blanks are allowed) or
   * longer than the limit.
   */
  function CleanChar(raw: Option<string>, required: bool, allowBlank: bool, maxLength: Option<nat>): (r: Cleaned<string>)
    ensures r.Omitted? <==> raw.None? && !required
    ensures r.Clean? ==> raw.Some? && r.value == Strip(raw.value)
    ensures r.Clean? <==> raw.Some? && (allowBlank || !AllWhitespace(raw.value))
                          && (maxLength.Some? ==> |Strip(raw.value)| <= maxLength.value)
  {
    match raw
    case None => if required then Failed else Omitted
    case Some(s) =>
      var v := Strip(s);
      if v == [] && !allowBlank then Failed
      else if maxLength.Some? && |v| > maxLength.value then Failed
      else Clean(v)
  }

  /** A submitted integer, or something that does not parse as one. */
  datatype IntInput = Int(n: int) | NotInt

  /** An integer field with minimum and maximum value validators. */
  function CleanBoundedInt(raw: Option<IntInput>, required: bool, lo: int, hi: int): (r: Cleaned<int>)
    ensures r.Omitted? <==> raw.None? && !required
    ensures r.Clean? <==> raw.Some? && raw.value.Int? && lo <= raw.value.n <= hi
    ensures r.Clean? ==> r.value == raw.value.n
  {
    match raw
    case None => if required then Failed else Omitted
    case Some(NotInt) => Failed
    case Some(Int(n)) => if lo <= n <= hi then Clean(n) else Failed
  }

  /** The `formula_type` choice field: blank, or one of the four codes, compared exactly. */
  function CleanFormulaType(raw: Option<string>): (r: Cleaned<string>)
    ensures r.Omitted? <==> raw.None?
    ensures r.Clean? <==> raw.Some? && (raw.value == "" || ParseFormulaType(raw.value).Some?)
    ensures r.Clean? ==> r.value == raw.value
  {
    match raw
    case None => Omitted
    case Some(s) => if IsFormulaTypeChoice(s) then Clean(s) else Failed
  }

  /** Error paths of a nested serializer, under the field that holds it. */
  function Nested(prefix: string, fields: set<string>): set<string> {
    set f | f in fields :: prefix + "." + f
  }

  function ErrorsOf<T>(r: Result<T, set<string>>): set<string> {
    if r.Failure? then r.error else {}
  }

  /** The field paths a 400 names; a 500 names none. */
  function FieldsOf<T>(r: Result<T, Error>): set<string> {
    if r.Failure? && r.error.ValidationError? then r.error.fields else {}
  }

  // ----- payloads and validated data -----

  datatype ClassificationPayload = ClassificationPayload(subject: Option<RawValue>, examNumber: Option<IntInput>)
  datatype ContextPayload = ContextPayload(formulaType: Option<string>, professor: Option<string>)

  /**
   * A photo payload; every key may be absent. `file` is absent, null, or the
   * name of an uploaded file; the owner is not part of it (read-only).
   */
  datatype PhotoPayload = PhotoPayload(
    name: Option<string>,
    file: Option<Option<string>>,
    description: Option<string>,
    classification: Option<ClassificationPayload>,
    context: Option<ContextPayload>,
    tags: Option<seq<RawValue>>)

  /** Validated data: only the keys that were submitted, with resolved rows for related fields. */
  datatype ClassificationData = ClassificationData(subject: Option<Id>, examNumber: Option<int>)
  datatype ContextData = ContextData(formulaType: Option<string>, professor: Option<string>)
  datatype PhotoData = PhotoData(
    name: Option<string>,
    file: Option<Option<string>>,
    description: Option<string>,
    classification: Option<ClassificationData>,
    context: Option<ContextData>,
    tags: Option<set<Id>>)

  // ----- classification and context validation -----

  /**
   * The classification fields, `subject` first: an accepted subject is
   * resolved (and maybe created) whatever `exam_number` turns out to be. A
   * subject the database refuses ends validation there, as a 500.
   */
  ghost function ValidateClassificationSpec(db: DbState, p: ClassificationPayload, partial: bool): (res: (DbState, Result<ClassificationData, Error>))
    ensures res.0 == db.(subjects := res.0.subjects, nextId := res.0.nextId) && res.0.nextId >= db.nextId
    ensures res.1.Failure? ==> res.1.error == ServerError || (res.1.error.ValidationError? && res.1.error.fields != {})
  {
    if p.subject.Some? && Resolve(db, SubjectTable, SubjectValidators, p.subject.value).1 == Failure(DatabaseError)
    then (db, Failure(ServerError))
    else
    var (after, subject) :=
      match p.subject
      case None => (db, if partial then Omitted else Failed)
      case Some(v) =>
        var (d, r) := Resolve(db, SubjectTable, SubjectValidators, v);
        (d, if r.Success? then Clean(r.value) else Failed);
    var exam := CleanBoundedInt(p.examNumber, !partial, MinExamNumber, MaxExamNumber);
    var errors := ErrorIf("subject", subject) + ErrorIf("exam_number", exam);
    (after, if errors == {} then Success(ClassificationData(subject.ToOption(), exam.ToOption())) else Failure(ValidationError(errors)))
  }

  /** A slug subject that no row carries and that is longer than the column: its insert fails. */
  ghost predicate SubjectRefused(db: DbState, p: ClassificationPayload) {
    && p.subject.Some? && p.subject.value.Text? && MatchesSlug(p.subject.value.s)
    && p.subject.value.s !in SubjectNames(db.subjects).Values && |p.subject.value.s| > SubjectNameMaxLength
  }

  ghost predicate ClassificationDataValid(db: DbState, c: ClassificationData) {
    && (c.subject.Some? ==> c.subject.value in db.subjects)
    && (c.examNumber.Some? ==> ExamNumberInRange(c.examNumber.value))
  }

  /**
   * The database refuses the subject exactly when it is a new slug too long
   * for the column, and then nothing is written; otherwise `exam_number` is
   * reported exactly when it is missing (and required), not an integer, or
   * outside 1..6, and a subject that is a slug is present afterwards, even
   * if the request fails on `exam_number`; accepted data names an existing
   * subject and an exam number in range, and both are there unless the
   * update is partial.
   */
  lemma ValidateClassificationEffect(db: DbState, p: ClassificationPayload, partial: bool)
    ensures var (after, r) := ValidateClassificationSpec(db, p, partial);
      && (r == Failure(ServerError) <==> SubjectRefused(db, p))
      && (r == Failure(ServerError) ==> after == db)
      && (p.subject.Some? && p.subject.value.Text? && MatchesSlug(p.subject.value.s) && !SubjectRefused(db, p) ==>
            p.subject.value.s in SubjectNames(after.subjects).Values)
      && ("exam_number" in FieldsOf(r) <==>
            (!SubjectRefused(db, p) &&
             ((p.examNumber.None? && !partial) || (p.examNumber.Some? && !(p.examNumber.value.Int? && ExamNumberInRange(p.examNumber.value.n))))))
      && (r.Success? ==> (ClassificationDataValid(after, r.value)
                           && (!partial ==> r.value.subject.Some? && r.value.examNumber.Some?)))
      && (r.Success? && r.value.subject.Some? ==>
            p.subject.Some? && p.subject.value.Text? && after.subjects[r.value.subject.value].name == p.subject.value.s)
      && (r.Success? && r.value.examNumber.Some? ==> p.examNumber == Some(Int(r.value.examNumber.value)))
  {
    if p.subject.Some? {
      var v := p.subject.value;
      if v.Text? {
        MatchesSlugIff(v.s);
      }
      var (after, r) := Resolve(db, SubjectTable, SubjectValidators, v);
      if r.Success? {
        assert NamesOf(after, SubjectTable)[r.value] == v.s;
      }
    }
  }

  /** Classification validation adds subject rows under fresh keys only, and never changes an existing one. */
  lemma ValidateClassificationFrame(db: DbState, p: ClassificationPayload, partial: bool)
    requires IdsFresh(db)
    ensures var after := ValidateClassificationSpec(db, p, partial).0;
      && IdsFresh(after)
      && (forall k :: k in db.subjects ==> k in after.subjects && after.subjects[k] == db.subjects[k])
  {
    if p.subject.Some? {
      ResolveFrame(db, SubjectTable, SubjectValidators, p.subject.value);
    }
  }

  /** Classification validation keeps every constraint of the store. */
  lemma ValidateClassificationConsistent(db: DbState, p: ClassificationPayload, partial: bool)
    requires Consistent(db)
    ensures Consistent(ValidateClassificationSpec(db, p, partial).0)
  {
    if p.subject.Some? {
      ResolveEffect(db, SubjectTable, SubjectValidators, p.subject.value);
    }
  }

  method ValidateClassification(store: Store, p: ClassificationPayload, partial: bool) returns (r: Result<ClassificationData, Error>)
    requires store.Valid()
    modifies store
    ensures store.Valid()
    ensures (store.db, r) == ValidateClassificationSpec(old(store.db), p, partial)
  {
    ghost var before := store.db;
    var subject: Cleaned<Id>;
    if p.subject.None? {
      subject := if partial then Omitted else Failed;
    } else {
      var field := new SlugGetOrCreateRelatedField(SubjectTable, Some(SubjectValidators));
      var resolved := field.ToInternalValue(store, p.subject.value);
      if resolved == Failure(DatabaseError) {
        return Failure(ServerError);
      }
      subject := if resolved.Success? then Clean(resolved.value) else Failed;
    }
    var exam := CleanBoundedInt(p.examNumber, !partial, MinExamNumber, MaxExamNumber);
    var errors := ErrorIf("subject", subject) + ErrorIf("exam_number", exam);
    r := if errors == {} then Success(ClassificationData(subject.ToOption(), exam.ToOption())) else Failure(ValidationError(errors));
  }

  /** The context fields; neither is required and neither touches the store. */
  function ValidateContext(p: ContextPayload): (r: Result<ContextData, set<string>>)
    ensures r.Success? ==> ContextDataValid(r.value)
    ensures "formula_type" in ErrorsOf(r) <==> p.formulaType.Some? && !IsFormulaTypeChoice(p.formulaType.value)
    ensures "professor" in ErrorsOf(r) <==> p.professor.Some? && |Strip(p.professor.value)| > ProfessorMaxLength
    ensures r.Failure? ==> r.error != {}
  {
    var formulaType := CleanFormulaType(p.formulaType);
    var professor := CleanChar(p.professor, false, true, Some(ProfessorMaxLength));
    var errors := ErrorIf("formula_type", formulaType) + ErrorIf("professor", professor);
    if errors == {} then Success(ContextData(formulaType.ToOption(), professor.ToOption())) else Failure(errors)
  }

  predicate ContextDataValid(c: ContextData) {
    && (c.formulaType.Some? ==> IsFormulaTypeChoice(c.formulaType.value))
    && (c.professor.Some? ==> |c.professor.value| <= ProfessorMaxLength)
  }

  /** The row a context descriptor creates: absent fields take the model's blank default. */
  function NewContext(c: ContextData): PhotoContext {
    PhotoContext(c.formulaType.GetOr(""), c.professor.GetOr(""))
  }

  // ----- the tag list -----

  /**
   * Each item of the tag list goes through the tag field in turn (the list
   * does not apply the field's null handling). The tag field has no
   * validators, so an item fails only when the database refuses it; that
   * error escapes as a 500 (`None`), and tags resolved before it stay
   * created.
   */
  ghost function ResolveTags(db: DbState, items: seq<RawValue>): (r: (DbState, Option<set<Id>>))
    ensures r.0 == db.(tags := r.0.tags, nextId := r.0.nextId) && r.0.nextId >= db.nextId
    decreases |items|
  {
    if items == [] then (db, Some({}))
    else
      var (d1, acc) := ResolveTags(db, items[..|items| - 1]);
      if acc.None? then (d1, None)
      else
        var (d2, r) := Resolve(d1, TagTable, [], items[|items| - 1]);
        if r.Failure? then (d2, None) else (d2, Some(acc.value + {r.value}))
  }

  /** Once a prefix of the list has failed, the rest of the list changes nothing. */
  lemma {:induction false} ResolveTagsStopped(db: DbState, items: seq<RawValue>, i: nat)
    requires i <= |items|
    requires ResolveTags(db, items[..i]).1.None?
    ensures ResolveTags(db, items) == ResolveTags(db, items[..i])
    decreases |items| - i
  {
    if i < |items| {
      assert items[..i + 1][..i] == items[..i];
      ResolveTagsStopped(db, items, i + 1);
    } else {
      assert items[..i] == items;
    }
  }

  /** Resolving a tag list adds tag rows under fresh keys and never changes an existing tag. */
  lemma {:induction false} ResolveTagsFrame(db: DbState, items: seq<RawValue>)
    requires IdsFresh(db)
    ensures var after := ResolveTags(db, items).0;
      && IdsFresh(after)
      && (forall k :: k in db.tags ==> k in after.tags && after.tags[k] == db.tags[k])
    decreases |items|
  {
    if items != [] {
      var prefix, last := items[..|items| - 1], items[|items| - 1];
      ResolveTagsFrame(db, prefix);
      var (d1, acc) := ResolveTags(db, prefix);
      if acc.Some? {
        ResolveFrame(d1, TagTable, [], last);
        var d2 := Resolve(d1, TagTable, [], last).0;
        forall k | k in d1.tags ensures k in d2.tags && d2.tags[k] == d1.tags[k] {
          assert k in NamesOf(d1, TagTable);
        }
      }
    }
  }

  /** Resolving a tag list keeps every constraint of the store. */
  lemma {:induction false} ResolveTagsConsistent(db: DbState, items: seq<RawValue>)
    requires Consistent(db)
    ensures Consistent(ResolveTags(db, items).0)
    decreases |items|
  {
    if items != [] {
      var prefix, last := items[..|items| - 1], items[|items| - 1];
      ResolveTagsConsistent(db, prefix);
      var (d1, acc) := ResolveTags(db, prefix);
      if acc.Some? {
        ResolveEffect(d1, TagTable, [], last);
      }
    }
  }

  /** A tag list resolves exactly when every item is a non-null name that fits the tag column. */
  lemma {:induction false} ResolveTagsSucceeds(db: DbState, items: seq<RawValue>)
    requires Consistent(db)
    ensures ResolveTags(db, items).1.Some? <==> forall i :: 0 <= i < |items| ==> Storable(TagTable, items[i])
    decreases |items|
  {
    if items != [] {
      var n := |items| - 1;
      var prefix := items[..n];
      ResolveTagsSucceeds(db, prefix);
      assert forall i :: 0 <= i < |prefix| ==> prefix[i] == items[i];
      var (d1, acc) := ResolveTags(db, prefix);
      if acc.Some? {
        ResolveTagsConsistent(db, prefix);
        ResolveStorable(d1, TagTable, [], items[n]);
        ResolveTagsStep(db, items, n);
        assert items[..n + 1] == items;
      } else {
        var m :| 0 <= m < |prefix| && !Storable(TagTable, prefix[m]);
        assert !Storable(TagTable, items[m]);
      }
    }
  }

  /** The names among the submitted items, converted to strings. */
  function SubmittedNames(items: seq<RawValue>): set<string> {
    set i | 0 <= i < |items| && !items[i].Null? :: items[i].s
  }

  /** The names carried by some rows of the tag table. */
  function RowNames(tags: map<Id, Tag>, ids: set<Id>): set<string>
    requires ids <= tags.Keys
  {
    set k | k in ids :: tags[k].name
  }

  lemma SubmittedNamesSnoc(items: seq<RawValue>)
    requires items != [] && !items[|items| - 1].Null?
    ensures SubmittedNames(items) == SubmittedNames(items[..|items| - 1]) + {items[|items| - 1].s}
  {
    var prefix := items[..|items| - 1];
    forall i | 0 <= i < |items| && !items[i].Null? ensures items[i].s in SubmittedNames(prefix) + {items[|items| - 1].s} {
      if i < |prefix| { assert prefix[i] == items[i]; }
    }
    forall i | 0 <= i < |prefix| && !prefix[i].Null? ensures prefix[i].s in SubmittedNames(items) {
      assert prefix[i] == items[i];
    }
  }

  lemma RowNamesAdd(a: map<Id, Tag>, b: map<Id, Tag>, ids: set<Id>, id: Id)
    requires ids <= a.Keys && id in b
    requires forall k :: k in a ==> k in b && b[k] == a[k]
    ensures RowNames(b, ids + {id}) == RowNames(a, ids) + {b[id].name}
  {
  }

  /** A resolved tag list names exactly the submitted names, with rows of the store. */
  lemma {:induction false} ResolveTagsNames(db: DbState, items: seq<RawValue>)
    requires IdsFresh(db)
    ensures var (after, r) := ResolveTags(db, items);
      r.Some? ==> r.value <= after.tags.Keys && RowNames(after.tags, r.value) == SubmittedNames(items)
    decreases |items|
  {
    if items != [] {
      var prefix, last := items[..|items| - 1], items[|items| - 1];
      ResolveTagsNames(db, prefix);
      ResolveTagsFrame(db, prefix);
      var (d1, acc) := ResolveTags(db, prefix);
      if acc.Some? {
        ResolveFrame(d1, TagTable, [], last);
        var (d2, r) := Resolve(d1, TagTable, [], last);
        if r.Success? {
          forall k | k in d1.tags ensures k in d2.tags && d2.tags[k] == d1.tags[k] {
            assert k in NamesOf(d1, TagTable);
          }
          assert d2.tags[r.value].name == last.s by {
            assert NamesOf(d2, TagTable)[r.value] == last.s;
          }
          RowNamesAdd(d1.tags, d2.tags, acc.value, r.value);
          SubmittedNamesSnoc(items);
        }
      }
    }
  }

  lemma ValuesGrow<K, V>(a: map<K, V>, b: map<K, V>)
    requires forall k :: k in a ==> k in b && b[k] == a[k]
    ensures a.Values <= b.Values
  {
    forall x | x in a.Values ensures x in b.Values {
      var k :| k in a && a[k] == x;
      assert b[k] == x;
    }
  }

  /** Resolving one tag item keeps every tag name and adds the item's own when the column can hold it. */
  lemma ResolveTagKeepsNames(db: DbState, item: RawValue)
    requires Consistent(db)
    ensures var after := Resolve(db, TagTable, [], item).0;
      && TagNames(db.tags).Values <= TagNames(after.tags).Values
      && (Storable(TagTable, item) ==> item.s in TagNames(after.tags).Values)
  {
    ResolveFrame(db, TagTable, [], item);
    ResolveStorable(db, TagTable, [], item);
    var (after, r) := Resolve(db, TagTable, [], item);
    ValuesGrow(NamesOf(db, TagTable), NamesOf(after, TagTable));
    if r.Success? {
      assert NamesOf(after, TagTable)[r.value] == item.s;
    }
  }

  /** Every tag named before the first item the database refuses exists afterwards, whether or not the list succeeds. */
  lemma {:induction false} ResolveTagsLeavesRows(db: DbState, items: seq<RawValue>)
    requires Consistent(db)
    ensures var after := ResolveTags(db, items).0;
      forall i :: 0 <= i < |items| && (forall j :: 0 <= j <= i ==> Storable(TagTable, items[j])) ==>
        items[i].s in TagNames(after.tags).Values
    decreases |items|
  {
    if items != [] {
      var prefix, last := items[..|items| - 1], items[|items| - 1];
      ResolveTagsLeavesRows(db, prefix);
      ResolveTagsConsistent(db, prefix);
      ResolveTagsSucceeds(db, prefix);
      var (d1, acc) := ResolveTags(db, prefix);
      if acc.Some? {
        ResolveTagKeepsNames(d1, last);
        LeadingNamesExtend(items, prefix, TagNames(d1.tags).Values, TagNames(ResolveTags(db, items).0.tags).Values);
      } else {
        var m :| 0 <= m < |prefix| && !Storable(TagTable, prefix[m]);
        LeadingNamesStop(items, prefix, m, TagNames(d1.tags).Values);
      }
    }
  }

  /** The names of the items up to the first one the tag column cannot hold. */
  ghost predicate LeadingNamesIn(items: seq<RawValue>, names: set<string>) {
    forall i :: 0 <= i < |items| && (forall j :: 0 <= j <= i ==> Storable(TagTable, items[j])) ==> items[i].s in names
  }

  /** The leading names of a list are those of its prefix and, when every earlier item is storable, its last one. */
  lemma LeadingNamesExtend(items: seq<RawValue>, prefix: seq<RawValue>, before: set<string>, after: set<string>)
    requires items != [] && prefix == items[..|items| - 1] && before <= after
    requires LeadingNamesIn(prefix, before)
    requires Storable(TagTable, items[|items| - 1]) ==> items[|items| - 1].s in after
    ensures LeadingNamesIn(items, after)
  {
    forall i | 0 <= i < |items| && (forall j :: 0 <= j <= i ==> Storable(TagTable, items[j])) ensures items[i].s in after {
      if i < |prefix| {
        assert forall j :: 0 <= j <= i ==> prefix[j] == items[j];
        assert prefix[i].s in before;
      }
    }
  }

  /** Past an item the column cannot hold, the leading names of a list are those of its prefix. */
  lemma LeadingNamesStop(items: seq<RawValue>, prefix: seq<RawValue>, m: nat, names: set<string>)
    requires items != [] && prefix == items[..|items| - 1]
    requires m < |prefix| && !Storable(TagTable, prefix[m])
    requires LeadingNamesIn(prefix, names)
    ensures LeadingNamesIn(items, names)
  {
    forall i | 0 <= i < |items| && (forall j :: 0 <= j <= i ==> Storable(TagTable, items[j])) ensures items[i].s in names {
      assert prefix[m] == items[m];
      assert forall j :: 0 <= j <= i ==> prefix[j] == items[j];
    }
  }

  /** One more item: resolved against the store its prefix left, once the prefix has succeeded. */
  lemma ResolveTagsStep(db: DbState, items: seq<RawValue>, i: nat)
    requires i < |items|
    ensures var (d1, acc) := ResolveTags(db, items[..i]);
      acc.Some? ==>
        var (d2, r) := Resolve(d1, TagTable, [], items[i]);
        ResolveTags(db, items[..i + 1]) == (d2, if r.Failure? then None else Some(acc.value + {r.value}))
  {
    assert items[..i + 1][..i] == items[..i];
  }

  /** The tag list field: each item through a validator-less get-or-create field, stopping at the first failure. */
  method ResolveTagList(store: Store, items: seq<RawValue>) returns (r: Option<set<Id>>)
    requires store.Valid()
    modifies store
    ensures store.Valid()
    ensures (store.db, r) == ResolveTags(old(store.db), items)
  {
    ghost var before := store.db;
    var field := new SlugGetOrCreateRelatedField(TagTable, None);
    var acc: set<Id> := {};
    var i := 0;
    while i < |items|
      invariant 0 <= i <= |items|
      invariant store.Valid()
      invariant (store.db, Some(acc)) == ResolveTags(before, items[..i])
    {
      ResolveTagsStep(before, items, i);
      var resolved := field.ToInternalValue(store, items[i]);
      if resolved.Failure? {
        ResolveTagsStopped(before, items, i + 1);
        return None;
      }
      acc := acc + {resolved.value};
      i := i + 1;
    }
    assert items[..i] == items;
    r := Some(acc);
  }

  // ----- the photo payload -----

  /** The nested classification, required unless the update is partial; its field paths are reported under `photo_classification`. */
  ghost function ClassificationStage(db: DbState, c: Option<ClassificationPayload>, partial: bool): (res: (DbState, Result<Option<ClassificationData>, Error>))
    ensures res.0 == db.(subjects := res.0.subjects, nextId := res.0.nextId)
  {
    match c
    case None => (db, if partial then Success(None) else Failure(ValidationError({"photo_classification"})))
    case Some(c) =>
      var (d, r) := ValidateClassificationSpec(db, c, partial);
      (d, match r
          case Success(v) => Success(Some(v))
          case Failure(e) => Failure(if e.ValidationError? then ValidationError(Nested("photo_classification", e.fields)) else e))
  }

  /** The nested context, optional; its field paths are reported under `photo_context`. */
  function ContextStage(c: Option<ContextPayload>): Result<Option<ContextData>, set<string>> {
    match c
    case None => Success(None)
    case Some(c) =>
      var r := ValidateContext(c);
      if r.Success? then Success(Some(r.value)) else Failure(Nested("photo_context", r.error))
  }

  /** The optional tag list; an item the database refuses is a 500. */
  ghost function TagsStage(db: DbState, tags: Option<seq<RawValue>>): (res: (DbState, Result<Option<set<Id>>, Error>))
    ensures res.0 == db.(tags := res.0.tags, nextId := res.0.nextId)
  {
    match tags
    case None => (db, Success(None))
    case Some(items) =>
      var (d, r) := ResolveTags(db, items);
      (d, if r.Some? then Success(Some(r.value)) else Failure(ServerError))
  }

  /**
   * The photo fields in declared order: name, file, description, the nested
   * classification (which resolves the subject), the nested context, then
   * the tag list (which resolves the tags). Store changes made while
   * resolving survive a failure elsewhere in the payload. A subject or tag
   * the database refuses ends validation at once, as a 500.
   */
  ghost function ValidatePhotoSpec(db: DbState, p: PhotoPayload, partial: bool): (res: (DbState, Result<PhotoData, Error>))
    ensures res.0 == db.(subjects := res.0.subjects, tags := res.0.tags, nextId := res.0.nextId)
  {
    var name := CleanChar(p.name, !partial, false, Some(PhotoNameMaxLength));
    var description := CleanChar(p.description, false, true, None);
    var (db1, classification) := ClassificationStage(db, p.classification, partial);
    if classification == Failure(ServerError) then (db1, Failure(ServerError))
    else
    var context := ContextStage(p.context);
    var (db2, tags) := TagsStage(db1, p.tags);
    if tags.Failure? then (db2, Failure(ServerError))
    else
    var errors := ErrorIf("name", name) + FieldsOf(classification) + ErrorsOf(context);
    (db2,
     if !name.Failed? && classification.Success? && context.Success?
     then Success(PhotoData(name.ToOption(), p.file, description.ToOption(), classification.value, context.value, tags.value))
     else Failure(ValidationError(errors)))
  }

  /** The store photo validation leaves behind: the classification's, then the tag list's when it is reached. */
  lemma ValidatePhotoStages(db: DbState, p: PhotoPayload, partial: bool)
    ensures var db1 := ClassificationStage(db, p.classification, partial).0;
      var after := ValidatePhotoSpec(db, p, partial).0;
      after == db1 || after == TagsStage(db1, p.tags).0
  {
  }

  /**
   * What validated photo data guarantees: every related row exists and every
   * range holds; without `partial`, the required keys are present.
   */
  ghost predicate Admissible(db: DbState, d: PhotoData, partial: bool) {
    && (!partial ==> d.name.Some? && d.classification.Some?
                     && d.classification.value.subject.Some? && d.classification.value.examNumber.Some?)
    && (d.classification.Some? ==> ClassificationDataValid(db, d.classification.value))
    && (d.name.Some? ==> |d.name.value| <= PhotoNameMaxLength)
    && (d.context.Some? ==> ContextDataValid(d.context.value))
    && (d.tags.Some? ==> d.tags.value <= db.tags.Keys)
  }

  /** A rejected photo payload is a 500 from the database or names at least one field. */
  lemma ValidatePhotoRejection(db: DbState, p: PhotoPayload, partial: bool)
    ensures var r := ValidatePhotoSpec(db, p, partial).1;
      r.Failure? ==> r.error == ServerError || (r.error.ValidationError? && r.error.fields != {})
  {
    var r := ValidatePhotoSpec(db, p, partial).1;
    if r.Failure? && r.error != ServerError {
      if CleanChar(p.name, !partial, false, Some(PhotoNameMaxLength)).Failed? {
        assert "name" in r.error.fields;
        return;
      }
      var c := ClassificationStage(db, p.classification, partial).1;
      if c.Failure? {
        if p.classification.Some? {
          var f :| f in ValidateClassificationSpec(db, p.classification.value, partial).1.error.fields;
          assert "photo_classification" + "." + f in c.error.fields;
        }
        assert FieldsOf(c) <= r.error.fields;
        return;
      }
      if p.context.Some? {
        var x := ValidateContext(p.context.value);
        if x.Failure? {
          var f :| f in x.error;
          assert "photo_context" + "." + f in r.error.fields;
          return;
        }
      }
    }
  }

  /** The tags of a photo payload whose items the tag column cannot all hold. */
  ghost predicate TagsRefused(p: PhotoPayload) {
    p.tags.Some? && exists i :: 0 <= i < |p.tags.value| && !Storable(TagTable, p.tags.value[i])
  }

  /** A slug subject too long for the subject column. */
  ghost predicate SubjectTooLong(p: PhotoPayload) {
    && p.classification.Some? && p.classification.value.subject.Some?
    && p.classification.value.subject.value.Text? && MatchesSlug(p.classification.value.subject.value.s)
    && |p.classification.value.subject.value.s| > SubjectNameMaxLength
  }

  /** Under the schema's constraints, the subject the database refuses is exactly one too long for its column. */
  lemma SubjectRefusedTooLong(db: DbState, p: PhotoPayload)
    requires Consistent(db) && p.classification.Some?
    ensures SubjectRefused(db, p.classification.value) <==> SubjectTooLong(p)
  {
    var c := p.classification.value;
    if c.subject.Some? && c.subject.value.Text? && c.subject.value.s in SubjectNames(db.subjects).Values {
      TakenNameFits(db, SubjectTable, c.subject.value.s);
    }
  }

  /**
   * Photo validation fails with a 500 exactly when the subject is a slug too
   * long for its column, or some tag item is null or too long for its
   * column.
   */
  lemma ValidatePhotoAborts(db: DbState, p: PhotoPayload, partial: bool)
    requires Consistent(db)
    ensures ValidatePhotoSpec(db, p, partial).1 == Failure(ServerError) <==> SubjectTooLong(p) || TagsRefused(p)
  {
    var db1 := ClassificationStage(db, p.classification, partial).0;
    ClassificationStageAborts(db, p, partial);
    ClassificationStageConsistent(db, p.classification, partial);
    TagsStageAborts(db1, p);
  }

  lemma ClassificationStageAborts(db: DbState, p: PhotoPayload, partial: bool)
    requires Consistent(db)
    ensures ClassificationStage(db, p.classification, partial).1 == Failure(ServerError) <==> SubjectTooLong(p)
  {
    if p.classification.Some? {
      ValidateClassificationEffect(db, p.classification.value, partial);
      SubjectRefusedTooLong(db, p);
    }
  }

  lemma TagsStageAborts(db: DbState, p: PhotoPayload)
    requires Consistent(db)
    ensures TagsStage(db, p.tags).1.Failure? <==> TagsRefused(p)
  {
    if p.tags.Some? {
      ResolveTagsSucceeds(db, p.tags.value);
    }
  }

  /** Accepted photo data is assembled from the stages, each of which succeeded. */
  lemma ValidatePhotoAccepted(db: DbState, p: PhotoPayload, partial: bool)
    ensures var (db1, c) := ClassificationStage(db, p.classification, partial);
      var (after, r) := ValidatePhotoSpec(db, p, partial);
      var name := CleanChar(p.name, !partial, false, Some(PhotoNameMaxLength));
      r.Success? ==>
        && !name.Failed? && r.value.name == name.ToOption()
        && c == Success(r.value.classification)
        && ContextStage(p.context) == Success(r.value.context)
        && TagsStage(db1, p.tags) == (after, Success(r.value.tags))
  {
    var name := CleanChar(p.name, !partial, false, Some(PhotoNameMaxLength));
    var description := CleanChar(p.description, false, true, None);
    var (db1, c) := ClassificationStage(db, p.classification, partial);
    var context := ContextStage(p.context);
    var (db2, t) := TagsStage(db1, p.tags);
    if c != Failure(ServerError) && t.Success? {
      var errors := ErrorIf("name", name) + FieldsOf(c) + ErrorsOf(context);
      assert ValidatePhotoSpec(db, p, partial) ==
        (db2,
         if !name.Failed? && c.Success? && context.Success?
         then Success(PhotoData(name.ToOption(), p.file, description.ToOption(), c.value, context.value, t.value))
         else Failure(ValidationError(errors)));
    }
  }

  /** Accepted photo data is admissible against the store that validation leaves behind. */
  lemma ValidatePhotoAdmissible(db: DbState, p: PhotoPayload, partial: bool)
    requires IdsFresh(db)
    ensures var (after, r) := ValidatePhotoSpec(db, p, partial);
      r.Success? ==> Admissible(after, r.value, partial)
  {
    var (after, r) := ValidatePhotoSpec(db, p, partial);
    if r.Success? {
      ValidatePhotoAccepted(db, p, partial);
      var (db1, c) := ClassificationStage(db, p.classification, partial);
      if p.classification.Some? {
        ValidateClassificationEffect(db, p.classification.value, partial);
        ValidateClassificationFrame(db, p.classification.value, partial);
      }
      assert c.value.Some? ==> ClassificationDataValid(db1, c.value.value);
      if p.tags.Some? {
        ResolveTagsNames(db1, p.tags.value);
        ResolveTagsFrame(db1, p.tags.value);
      }
      assert r.value.classification.Some? ==> ClassificationDataValid(after, r.value.classification.value);
      assert r.value.tags.Some? ==> r.value.tags.value <= after.tags.Keys;
    }
  }

  /** Photo validation adds subject and tag rows under fresh keys only, and never changes an existing one. */
  lemma ValidatePhotoFrame(db: DbState, p: PhotoPayload, partial: bool)
    requires IdsFresh(db)
    ensures var after := ValidatePhotoSpec(db, p, partial).0;
      && IdsFresh(after)
      && (forall k :: k in db.subjects ==> k in after.subjects && after.subjects[k] == db.subjects[k])
      && (forall k :: k in db.tags ==> k in after.tags && after.tags[k] == db.tags[k])
  {
    var db1 := ClassificationStage(db, p.classification, partial).0;
    if p.classification.Some? {
      ValidateClassificationFrame(db, p.classification.value, partial);
    }
    if p.tags.Some? {
      ResolveTagsFrame(db1, p.tags.value);
    }
    ValidatePhotoStages(db, p, partial);
  }

  /** Validating a photo payload keeps every constraint of the store. */
  lemma ValidatePhotoConsistent(db: DbState, p: PhotoPayload, partial: bool)
    requires Consistent(db)
    ensures Consistent(ValidatePhotoSpec(db, p, partial).0)
  {
    var db1 := ClassificationStage(db, p.classification, partial).0;
    ClassificationStageConsistent(db, p.classification, partial);
    TagsStageConsistent(db1, p.tags);
    ValidatePhotoStages(db, p, partial);
  }

  lemma ClassificationStageConsistent(db: DbState, c: Option<ClassificationPayload>, partial: bool)
    requires Consistent(db)
    ensures Consistent(ClassificationStage(db, c, partial).0)
  {
    if c.Some? {
      ValidateClassificationConsistent(db, c.value, partial);
    }
  }

  lemma TagsStageConsistent(db: DbState, tags: Option<seq<RawValue>>)
    requires Consistent(db)
    ensures Consistent(TagsStage(db, tags).0)
  {
    if tags.Some? {
      ResolveTagsConsistent(db, tags.value);
    }
  }

  /**
   * A subject that passes the slug check and fits its column is left in the
   * store by photo validation even when the payload is rejected for another
   * field (an out-of-range exam number, a null tag): rows are created during
   * field validation and nothing rolls them back.
   */
  lemma ValidatePhotoLeavesSubject(db: DbState, p: PhotoPayload, partial: bool, s: string)
    requires p.classification.Some? && p.classification.value.subject == Some(Text(s)) && MatchesSlug(s)
    requires |s| <= SubjectNameMaxLength
    ensures s in SubjectNames(ValidatePhotoSpec(db, p, partial).0.subjects).Values
  {
    ValidateClassificationEffect(db, p.classification.value, partial);
    var db1 := ClassificationStage(db, p.classification, partial).0;
    assert s in SubjectNames(db1.subjects).Values;
    ValidatePhotoStages(db, p, partial);
  }

  method ValidatePhoto(store: Store, p: PhotoPayload, partial: bool) returns (r: Result<PhotoData, Error>)
    requires store.Valid()
    modifies store
    ensures store.Valid()
    ensures (store.db, r) == ValidatePhotoSpec(old(store.db), p, partial)
  {
    ghost var before := store.db;
    var name := CleanChar(p.name, !partial, false, Some(PhotoNameMaxLength));
    var description := CleanChar(p.description, false, true, None);
    var classification: Result<Option<ClassificationData>, Error>;
    if p.classification.None? {
      classification := if partial then Success(None) else Failure(ValidationError({"photo_classification"}));
    } else {
      var c := ValidateClassification(store, p.classification.value, partial);
      classification := match c
        case Success(v) => Success(Some(v))
        case Failure(e) => Failure(if e.ValidationError? then ValidationError(Nested("photo_classification", e.fields)) else e);
    }
    assert (store.db, classification) == ClassificationStage(before, p.classification, partial);
    if classification == Failure(ServerError) {
      return Failure(ServerError);
    }
    ghost var db1 := store.db;
    var context: Result<Option<ContextData>, set<string>>;
    if p.context.None? {
      context := Success(None);
    } else {
      var c := ValidateContext(p.context.value);
      context := if c.Success? then Success(Some(c.value)) else Failure(Nested("photo_context", c.error));
    }
    var tags: Option<set<Id>> := None;
    if p.tags.Some? {
      var t := ResolveTagList(store, p.tags.value);
      if t.None? {
        assert TagsStage(db1, p.tags) == (store.db, Failure(ServerError));
        return Failure(ServerError);
      }
      tags := Some(t.value);
    }
    assert TagsStage(db1, p.tags) == (store.db, Success(tags));
    var errors := ErrorIf("name", name) + FieldsOf(classification) + ErrorsOf(context);
    r := if !name.Failed? && classification.Success? && context.Success?
         then Success(PhotoData(name.ToOption(), p.file, description.ToOption(), classification.value, context.value, tags))
         else Failure(ValidationError(errors));
  }

  // ----- PhotoClassificationSerializer.create -----

  /** get-or-create on the (subject, exam_number) pair. */
  method CreateClassification(store: Store, subject: Id, examNumber: int) returns (id: Id)
    requires store.Valid() && subject in store.db.subjects && ExamNumberInRange(examNumber)
    modifies store
    ensures store.Valid()
    ensures (store.db, id) == GetOrCreateClassification(old(store.db), subject, examNumber)
  {
    var found := store.LookupClassification(subject, examNumber);
    if found.Some? {
      id := found.value;
    } else {
      id := store.InsertClassification(subject, examNumber);
    }
  }

  // ----- PhotoSerializer.create -----

  /** Where an upload lands once the photo row is saved: under its owner's directory. */
  function UploadedPath(row: Photo, upload: Option<string>): Option<string> {
    match upload
    case Some(f) => Some(UserPhotosDirectoryPath(row, f))
    case None => None
  }

  function AddStored(files: set<string>, path: Option<string>): set<string> {
    match path
    case Some(q) => files + {q}
    case None => files
  }

  /** The related rows `create` makes first: the classification by get-or-create, then a context row if a descriptor was given. */
  ghost function CreatedRelations(db: DbState, d: PhotoData): (r: (DbState, Id, Option<Id>))
    requires Admissible(db, d, false)
    ensures r.0 == db.(classifications := r.0.classifications, contexts := r.0.contexts, nextId := r.0.nextId)
    ensures r.0.nextId >= db.nextId
    ensures r.1 in r.0.classifications && (r.2.Some? ==> r.2.value in r.0.contexts)
  {
    var c := d.classification.value;
    var (db1, cls) := GetOrCreateClassification(db, c.subject.value, c.examNumber.value);
    match d.context
    case None => (db1, cls, None)
    case Some(cd) => (db1.(contexts := db1.contexts[db1.nextId := NewContext(cd)], nextId := db1.nextId + 1), cls, Some(db1.nextId))
  }

  /**
   * `Photo.objects.create` followed by `tags.add`: the row is inserted with
   * its upload stored under the owner's directory, then the tags are
   * attached.
   */
  function InsertedPhoto(db: DbState, row: Photo, upload: Option<string>, tags: set<Id>): (DbState, Id) {
    var id := db.nextId;
    var path := UploadedPath(row, upload);
    (db.(photos := db.photos[id := row.(file := path, tags := tags)], files := AddStored(db.files, path), nextId := id + 1), id)
  }

  /** The row `create` inserts, before its tags are attached. */
  function CreatedRow(d: PhotoData, cls: Id, context: Option<Id>, actor: UserId): Photo
    requires d.name.Some?
  {
    Photo(None, d.name.value, d.description.GetOr(""), cls, context, actor, {})
  }

  /**
   * The classification descriptor is resolved by get-or-create, a context
   * row is created from the descriptor if there is one, the photo row is
   * inserted with the acting user as owner (its upload stored in the owner's
   * directory), and then the supplied tags are attached.
   */
  ghost function PhotoCreated(db: DbState, d: PhotoData, actor: UserId): (DbState, Id)
    requires Admissible(db, d, false)
  {
    var (db2, cls, context) := CreatedRelations(db, d);
    InsertedPhoto(db2, CreatedRow(d, cls, context, actor), d.file.GetOr(None), d.tags.GetOr({}))
  }

  /**
   * Creating a photo adds exactly one photo row, under a fresh key, owned by
   * the acting user, referencing the (subject, exam_number) classification,
   * named and described as submitted, carrying the supplied tags (or none),
   * with an upload stored under the owner's directory.
   */
  lemma PhotoCreatedRow(db: DbState, d: PhotoData, actor: UserId)
    requires KeysBelow(db.photos, db.nextId) && Admissible(db, d, false)
    ensures var (after, id) := PhotoCreated(db, d, actor);
      var c := d.classification.value;
      && id !in db.photos && id in after.photos
      && after.photos == db.photos[id := after.photos[id]]
      && after.photos[id].user == actor
      && after.photos[id].name == d.name.value
      && after.photos[id].description == d.description.GetOr("")
      && after.photos[id].tags == d.tags.GetOr({})
      && after.photos[id].classification in after.classifications
      && after.classifications[after.photos[id].classification] == PhotoClassification(c.subject.value, c.examNumber.value)
      && after.photos[id].file == UploadedPath(after.photos[id], d.file.GetOr(None))
      && after.files == AddStored(db.files, after.photos[id].file)
  {
  }

  /**
   * Creating a photo adds a context row exactly when a descriptor was
   * supplied, under a fresh key, and it is the photo's; the classification
   * table changes only by the get-or-create; subjects, tags, reviews and
   * profiles are untouched.
   */
  lemma PhotoCreatedTables(db: DbState, d: PhotoData, actor: UserId)
    requires KeysBelow(db.contexts, db.nextId) && Admissible(db, d, false)
    ensures var (after, id) := PhotoCreated(db, d, actor);
      var c := d.classification.value;
      && id in after.photos
      && (d.context.None? ==> after.photos[id].context.None? && after.contexts == db.contexts)
      && (d.context.Some? ==> (after.photos[id].context.Some? && after.photos[id].context.value !in db.contexts
            && after.contexts == db.contexts[after.photos[id].context.value := NewContext(d.context.value)]))
      && after.classifications == GetOrCreateClassification(db, c.subject.value, c.examNumber.value).0.classifications
      && after.subjects == db.subjects && after.tags == db.tags
      && after.reviews == db.reviews && after.profiles == db.profiles
  {
  }

  /**
   * The row `create` inserts may be inserted: it references rows that exist,
   * its name fits the column, and its context, when it has one, is no other
   * photo's.
   */
  lemma CreatedRowInsertable(db: DbState, d: PhotoData, actor: UserId)
    requires Consistent(db) && Admissible(db, d, false)
    ensures var (db2, cls, context) := CreatedRelations(db, d);
      && PhotoRefsValid(CreatedRow(d, cls, context, actor).(tags := d.tags.GetOr({})), db2.classifications, db2.contexts, db2.tags)
      && |CreatedRow(d, cls, context, actor).name| <= PhotoNameMaxLength
      && !ContextTaken(db2.photos, context, None)
  {
    var (db2, cls, context) := CreatedRelations(db, d);
    if context.Some? {
      forall q | q in db.photos ensures db.photos[q].context != context {
        assert PhotoRefsValid(db.photos[q], db.classifications, db.contexts, db.tags);
      }
    }
  }

  /** The related rows of `create`, on the live store. */
  method CreateRelatedRows(store: Store, d: PhotoData) returns (cls: Id, context: Option<Id>)
    requires store.Valid() && Admissible(store.db, d, false)
    modifies store
    ensures store.Valid()
    ensures (store.db, cls, context) == CreatedRelations(old(store.db), d)
  {
    var c := d.classification.value;
    cls := CreateClassification(store, c.subject.value, c.examNumber.value);
    context := None;
    if d.context.Some? {
      var cid := store.InsertContext(NewContext(d.context.value));
      context := Some(cid);
    }
  }

  /** The storage backend keeps an upload under the path the row's owner gives it. */
  method StoreUpload(store: Store, row: Photo, upload: Option<string>) returns (path: Option<string>)
    requires store.Valid()
    modifies store
    ensures store.Valid()
    ensures path == UploadedPath(row, upload)
    ensures store.db == old(store.db).(files := AddStored(old(store.db).files, path))
  {
    path := UploadedPath(row, upload);
    if path.Some? {
      store.SaveFile(path.value);
    }
  }

  /** Inserting a row without tags and then adding tags to it inserts the tagged row. */
  lemma TaggedInsert(db: DbState, id: Id, row: Photo, tags: set<Id>)
    requires row.tags == {}
    ensures var inserted := db.(photos := db.photos[id := row], nextId := id + 1);
      inserted.(photos := inserted.photos[id := inserted.photos[id].(tags := inserted.photos[id].tags + tags)])
      == db.(photos := db.photos[id := row.(tags := tags)], nextId := id + 1)
  {
    assert row.(tags := {} + tags) == row.(tags := tags);
    assert db.photos[id := row][id := row.(tags := tags)] == db.photos[id := row.(tags := tags)];
  }

  /** `Photo.objects.create` of a row without tags, then `tags.add`. */
  method InsertTaggedPhoto(store: Store, row: Photo, tags: set<Id>) returns (id: Id)
    requires store.Valid() && row.tags == {}
    requires PhotoRefsValid(row.(tags := tags), store.db.classifications, store.db.contexts, store.db.tags) && |row.name| <= PhotoNameMaxLength
    requires !ContextTaken(store.db.photos, row.context, None)
    modifies store
    ensures store.Valid()
    ensures id == old(store.db.nextId)
    ensures store.db == old(store.db).(photos := old(store.db.photos)[id := row.(tags := tags)], nextId := id + 1)
  {
    ghost var before := store.db;
    id := store.InsertPhoto(row);
    store.AddPhotoTags(id, tags);
    TaggedInsert(before, id, row, tags);
  }

  /** The insert and the tag attachment of `create`, on the live store, after the upload is stored. */
  method InsertPhotoStep(store: Store, row: Photo, upload: Option<string>, tags: set<Id>) returns (id: Id)
    requires store.Valid() && row.tags == {}
    requires PhotoRefsValid(row.(tags := tags), store.db.classifications, store.db.contexts, store.db.tags) && |row.name| <= PhotoNameMaxLength
    requires !ContextTaken(store.db.photos, row.context, None)
    modifies store
    ensures store.Valid()
    ensures (store.db, id) == InsertedPhoto(old(store.db), row, upload, tags)
  {
    var path := StoreUpload(store, row, upload);
    assert row.(file := path).(tags := tags) == row.(file := path, tags := tags);
    id := InsertTaggedPhoto(store, row.(file := path), tags);
  }

  /** `PhotoSerializer.create`, with the owner the view passes to `save`. */
  method PhotoCreate(store: Store, d: PhotoData, actor: UserId) returns (id: Id)
    requires store.Valid() && Admissible(store.db, d, false)
    modifies store
    ensures store.Valid()
    ensures (store.db, id) == PhotoCreated(old(store.db), d, actor)
  {
    CreatedRowInsertable(store.db, d, actor);
    var cls, context := CreateRelatedRows(store, d);
    id := InsertPhotoStep(store, CreatedRow(d, cls, context, actor), d.file.GetOr(None), d.tags.GetOr({}));
  }

  // ----- PhotoSerializer.update -----

  /** A classification descriptor with at least one key; an empty one is falsy and ignored. */
  predicate NonEmpty(c: ClassificationData) {
    c.subject.Some? || c.examNumber.Some?
  }

  /** The supplied classification keys over the current (subject, exam_number). */
  function MergeClassification(current: PhotoClassification, c: ClassificationData): PhotoClassification {
    PhotoClassification(c.subject.GetOr(current.subject), c.examNumber.GetOr(current.examNumber))
  }

  /** The supplied context keys over the current context's values. */
  function MergeContext(current: PhotoContext, c: ContextData): PhotoContext {
    PhotoContext(c.formulaType.GetOr(current.formulaType), c.professor.GetOr(current.professor))
  }

  /**
   * The classification step of the update: a non-empty descriptor is merged
   * over the current (subject, exam_number) and resolved by get-or-create;
   * an absent or empty one keeps the current classification. Either way the
   * result is a row of the table, and only that table and the key counter
   * can change.
   */
  ghost function UpdatedClassification(db: DbState, current: Photo, c: Option<ClassificationData>): (r: (DbState, Id))
    requires current.classification in db.classifications
    ensures r.0 == db.(classifications := r.0.classifications, nextId := r.0.nextId) && r.0.nextId >= db.nextId
    ensures r.1 in r.0.classifications
    ensures c.Some? && NonEmpty(c.value) ==>
      r.0.classifications[r.1] == MergeClassification(db.classifications[current.classification], c.value)
    ensures !(c.Some? && NonEmpty(c.value)) ==> r == (db, current.classification)
  {
    if c.Some? && NonEmpty(c.value) then
      var merged := MergeClassification(db.classifications[current.classification], c.value);
      GetOrCreateClassification(db, merged.subject, merged.examNumber)
    else (db, current.classification)
  }

  /**
   * The context step of the update: with a descriptor, an existing context
   * row is updated in place (supplied keys over its own values) and a photo
   * without one gets a new row; without a descriptor nothing changes.
   */
  function UpdatedContext(db: DbState, current: Photo, c: Option<ContextData>): (r: (DbState, Option<Id>))
    requires current.context.Some? ==> current.context.value in db.contexts
    ensures r.0 == db.(contexts := r.0.contexts, nextId := r.0.nextId)
    ensures r.1.Some? ==> r.1.value in r.0.contexts
  {
    match c
    case None => (db, current.context)
    case Some(cd) =>
      match current.context
      case Some(cid) => (db.(contexts := db.contexts[cid := MergeContext(db.contexts[cid], cd)]), Some(cid))
      case None => (db.(contexts := db.contexts[db.nextId := NewContext(cd)], nextId := db.nextId + 1), Some(db.nextId))
  }

  /**
   * The classification step and then the context step, with the keys they
   * settle on; only those two tables and the key counter change.
   */
  ghost function UpdatedRelations(db: DbState, current: Photo, c: Option<ClassificationData>, x: Option<ContextData>): (r: (DbState, Id, Option<Id>))
    requires PhotoRefsValid(current, db.classifications, db.contexts, db.tags)
    ensures r.0 == db.(classifications := r.0.classifications, contexts := r.0.contexts, nextId := r.0.nextId)
    ensures r.0.nextId >= db.nextId
    ensures r.1 in r.0.classifications && (r.2.Some? ==> r.2.value in r.0.contexts)
  {
    var (db1, cls) := UpdatedClassification(db, current, c);
    var (db2, context) := UpdatedContext(db1, current, x);
    (db2, cls, context)
  }

  /** A payload with a `file` key first deletes the stored file. */
  function FileCleared(db: DbState, file: Option<string>, upload: Option<Option<string>>): DbState {
    if upload.Some? then db.(files := DeleteStored(db.files, file)) else db
  }

  /**
   * The update in source order: a supplied file first deletes the stored
   * one; then the classification step; then the context step; supplied tags
   * replace the set; absent name and description keep their values; the
   * row is saved last, which stores a new upload under the owner's
   * directory. (Deleting the file also saves the row on its way; the final
   * save overwrites that intermediate write.)
   */
  ghost function PhotoUpdated(db: DbState, id: Id, d: PhotoData): DbState
    requires id in db.photos && PhotoRefsValid(db.photos[id], db.classifications, db.contexts, db.tags)
  {
    var current := db.photos[id];
    var (db2, cls, context) := UpdatedRelations(FileCleared(db, current.file, d.file), current, d.classification, d.context);
    SavedPhoto(db2, id, UpdatedRow(current, d, cls, context), d.file)
  }

  /** The row as `update` assigns it before saving: supplied values over the current ones. */
  function UpdatedRow(current: Photo, d: PhotoData, cls: Id, context: Option<Id>): Photo {
    Photo(current.file, d.name.GetOr(current.name), d.description.GetOr(current.description),
          cls, context, current.user, d.tags.GetOr(current.tags))
  }

  /** The final `save()`: a supplied upload is stored under the owner's directory and becomes the row's file. */
  function SavedPhoto(db: DbState, id: Id, row: Photo, file: Option<Option<string>>): (r: DbState)
    ensures id in r.photos && r == db.(photos := db.photos[id := r.photos[id]], files := r.files)
    ensures r.photos[id] == row.(file := r.photos[id].file)
    ensures file.None? ==> r.photos[id].file == row.file && r.files == db.files
    ensures file.Some? ==> r.photos[id].file == UploadedPath(row, file.value) && r.files == AddStored(db.files, r.photos[id].file)
  {
    match file
    case None => db.(photos := db.photos[id := row])
    case Some(upload) =>
      var path := UploadedPath(row, upload);
      db.(photos := db.photos[id := row.(file := path)], files := AddStored(db.files, path))
  }

  /** The snapshots the update passes through. */
  lemma PhotoUpdatedSteps(db: DbState, id: Id, d: PhotoData) returns (db0: DbState, db1: DbState, cls: Id, db2: DbState, context: Option<Id>)
    requires id in db.photos && PhotoRefsValid(db.photos[id], db.classifications, db.contexts, db.tags)
    ensures db0 == FileCleared(db, db.photos[id].file, d.file)
    ensures (db1, cls) == UpdatedClassification(db0, db.photos[id], d.classification)
    ensures (db2, context) == UpdatedContext(db1, db.photos[id], d.context)
    ensures PhotoUpdated(db, id, d) == SavedPhoto(db2, id, UpdatedRow(db.photos[id], d, cls, context), d.file)
  {
    var current := db.photos[id];
    db0 := FileCleared(db, current.file, d.file);
    var r1 := UpdatedClassification(db0, current, d.classification);
    db1, cls := r1.0, r1.1;
    var r2 := UpdatedContext(db1, current, d.context);
    db2, context := r2.0, r2.1;
    assert UpdatedRelations(db0, current, d.classification, d.context) == (db2, cls, context);
  }

  /**
   * An update keeps the photo's key and owner; absent name and description
   * keep their values and supplied ones replace them; supplied tags replace
   * the tag set and absent tags leave it; no other photo changes.
   */
  lemma PhotoUpdatedRow(db: DbState, id: Id, d: PhotoData)
    requires id in db.photos && PhotoRefsValid(db.photos[id], db.classifications, db.contexts, db.tags)
    ensures var after := PhotoUpdated(db, id, d);
      var current := db.photos[id];
      && after.photos.Keys == db.photos.Keys
      && (forall q :: q in db.photos && q != id ==> after.photos[q] == db.photos[q])
      && after.photos[id].user == current.user
      && after.photos[id].name == d.name.GetOr(current.name)
      && after.photos[id].description == d.description.GetOr(current.description)
      && after.photos[id].tags == d.tags.GetOr(current.tags)
  {
    var db0, db1, cls, db2, context := PhotoUpdatedSteps(db, id, d);
  }

  /**
   * A non-empty classification descriptor moves the photo to the
   * get-or-create of the current pair overridden by the supplied keys; an
   * absent or empty one leaves its classification and the table alone.
   */
  lemma PhotoUpdatedClassification(db: DbState, id: Id, d: PhotoData)
    requires id in db.photos && PhotoRefsValid(db.photos[id], db.classifications, db.contexts, db.tags)
    ensures var after := PhotoUpdated(db, id, d);
      var current := db.photos[id];
      && (d.classification.Some? && NonEmpty(d.classification.value) ==>
            var merged := MergeClassification(db.classifications[current.classification], d.classification.value);
            (after.photos[id].classification == GetOrCreateClassification(db, merged.subject, merged.examNumber).1
             && after.classifications[after.photos[id].classification] == merged))
      && (!(d.classification.Some? && NonEmpty(d.classification.value)) ==>
            after.photos[id].classification == current.classification && after.classifications == db.classifications)
  {
    var db0, db1, cls, db2, context := PhotoUpdatedSteps(db, id, d);
  }

  /**
   * With a context descriptor, an existing context row keeps its key and
   * takes the supplied fields over its own, and a photo without one gets a
   * fresh row built from the descriptor; without a descriptor the context is
   * untouched. A supplied file deletes the stored one before the new upload
   * is stored, and an absent one leaves file and storage alone.
   */
  lemma PhotoUpdatedContextAndFile(db: DbState, id: Id, d: PhotoData)
    requires id in db.photos && PhotoRefsValid(db.photos[id], db.classifications, db.contexts, db.tags)
    requires KeysBelow(db.contexts, db.nextId)
    ensures var after := PhotoUpdated(db, id, d);
      var current := db.photos[id];
      && (d.context.None? ==> after.photos[id].context == current.context && after.contexts == db.contexts)
      && (d.context.Some? && current.context.Some? ==>
            (after.photos[id].context == current.context
             && after.contexts == db.contexts[current.context.value := MergeContext(db.contexts[current.context.value], d.context.value)]))
      && (d.context.Some? && current.context.None? ==>
            (after.photos[id].context.Some? && after.photos[id].context.value !in db.contexts
             && after.contexts == db.contexts[after.photos[id].context.value := NewContext(d.context.value)]))
      && (d.file.None? ==> after.photos[id].file == current.file && after.files == db.files)
      && (d.file.Some? ==>
            (after.photos[id].file == UploadedPath(after.photos[id], d.file.value)
             && after.files == AddStored(DeleteStored(db.files, current.file), after.photos[id].file)))
      && after.subjects == db.subjects && after.tags == db.tags
      && after.reviews == db.reviews && after.profiles == db.profiles
  {
    var db0, db1, cls, db2, context := PhotoUpdatedSteps(db, id, d);
  }

  /** The classification step of `update`, on the live store. */
  method UpdateClassificationStep(store: Store, current: Photo, c: Option<ClassificationData>) returns (cls: Id)
    requires store.Valid() && current.classification in store.db.classifications
    requires c.Some? ==> ClassificationDataValid(store.db, c.value)
    modifies store
    ensures store.Valid()
    ensures (store.db, cls) == UpdatedClassification(old(store.db), current, c)
  {
    cls := current.classification;
    if c.Some? && NonEmpty(c.value) {
      var merged := MergeClassification(store.db.classifications[current.classification], c.value);
      assert merged.subject in store.db.subjects && ExamNumberInRange(merged.examNumber) by {
        assert ClassificationsWellFormed(store.db.classifications, store.db.subjects);
      }
      cls := CreateClassification(store, merged.subject, merged.examNumber);
    }
  }

  /** The context step of `update`, on the live store. */
  method UpdateContextStep(store: Store, current: Photo, c: Option<ContextData>) returns (context: Option<Id>)
    requires store.Valid() && (current.context.Some? ==> current.context.value in store.db.contexts)
    requires c.Some? ==> ContextDataValid(c.value)
    modifies store
    ensures store.Valid()
    ensures (store.db, context) == UpdatedContext(old(store.db), current, c)
  {
    context := current.context;
    if c.Some? {
      if current.context.Some? {
        var cid := current.context.value;
        assert ContextsWellFormed(store.db.contexts);
        store.UpdateContext(cid, MergeContext(store.db.contexts[cid], c.value));
      } else {
        var cid := store.InsertContext(NewContext(c.value));
        context := Some(cid);
      }
    }
  }

  /**
   * The row `update` is about to save may be saved: it references rows that
   * exist, its name fits the column, and its context is no other photo's.
   */
  lemma UpdatedRowSavable(db: DbState, id: Id, d: PhotoData)
    requires Consistent(db) && id in db.photos && Admissible(db, d, true)
    ensures var current := db.photos[id];
      var (db2, cls, context) := UpdatedRelations(FileCleared(db, current.file, d.file), current, d.classification, d.context);
      && db2.photos == db.photos
      && PhotoRefsValid(UpdatedRow(current, d, cls, context), db2.classifications, db2.contexts, db2.tags)
      && |UpdatedRow(current, d, cls, context).name| <= PhotoNameMaxLength
      && !ContextTaken(db2.photos, context, Some(id))
  {
    var current := db.photos[id];
    assert PhotoRefsValid(current, db.classifications, db.contexts, db.tags);
    var db0, db1, cls, db2, context := PhotoUpdatedSteps(db, id, d);
    if context == current.context {
      assert ContextsOneToOne(db.photos);
    } else {
      assert context == Some(db1.nextId) && db1.nextId >= db.nextId;
      forall q | q in db.photos ensures db.photos[q].context != context {
        assert PhotoRefsValid(db.photos[q], db.classifications, db.contexts, db.tags);
      }
    }
  }

  /** The final `save()` of `update`, on the live store. */
  method SavePhotoStep(store: Store, id: Id, row: Photo, file: Option<Option<string>>)
    requires store.Valid() && id in store.db.photos
    requires PhotoRefsValid(row, store.db.classifications, store.db.contexts, store.db.tags) && |row.name| <= PhotoNameMaxLength
    requires !ContextTaken(store.db.photos, row.context, Some(id))
    modifies store
    ensures store.Valid()
    ensures store.db == SavedPhoto(old(store.db), id, row, file)
  {
    var saved := row;
    if file.Some? {
      var path := UploadedPath(row, file.value);
      if path.Some? {
        store.SaveFile(path.value);
      }
      saved := row.(file := path);
    }
    store.UpdatePhoto(id, saved);
  }

  /** The classification and context steps of `update`, one after the other. */
  method UpdateRelatedRows(store: Store, current: Photo, c: Option<ClassificationData>, x: Option<ContextData>)
    returns (cls: Id, context: Option<Id>)
    requires store.Valid() && PhotoRefsValid(current, store.db.classifications, store.db.contexts, store.db.tags)
    requires c.Some? ==> ClassificationDataValid(store.db, c.value)
    requires x.Some? ==> ContextDataValid(x.value)
    modifies store
    ensures store.Valid()
    ensures (store.db, cls, context) == UpdatedRelations(old(store.db), current, c, x)
  {
    cls := UpdateClassificationStep(store, current, c);
    context := UpdateContextStep(store, current, x);
  }

  /** `update` deletes the stored file first whenever the payload carries a `file` key. */
  method ReplacedFileStep(store: Store, file: Option<string>, upload: Option<Option<string>>)
    requires store.Valid()
    modifies store
    ensures store.Valid()
    ensures store.db == FileCleared(old(store.db), file, upload)
  {
    if upload.Some? {
      store.DeleteFile(file);
    }
  }

  /** `PhotoSerializer.update` on the photo with key `id`. */
  method PhotoUpdate(store: Store, id: Id, d: PhotoData)
    requires store.Valid() && id in store.db.photos && Admissible(store.db, d, true)
    modifies store
    ensures store.Valid()
    ensures store.db == PhotoUpdated(old(store.db), id, d)
  {
    UpdatedRowSavable(store.db, id, d);
    var current := store.db.photos[id];
    assert PhotoRefsValid(current, store.db.classifications, store.db.contexts, store.db.tags);
    ReplacedFileStep(store, current.file, d.file);
    var cls, context := UpdateRelatedRows(store, current, d.classification, d.context);
    SavePhotoStep(store, id, UpdatedRow(current, d, cls, context), d.file);
  }

  // ----- SubjectSerializer and TagSerializer -----

  /**
   * The `name` field a model serializer derives from a unique name column:
   * required; the text is stripped and must not be blank, must fit the
   * column, must be a slug on a slug column, and must not be taken yet.
   */
  function CleanUniqueName(raw: Option<string>, maxLength: nat, slug: bool, taken: set<string>): (r: Cleaned<string>)
    ensures !r.Omitted?
    ensures r.Clean? <==> raw.Some? && var v := Strip(raw.value);
      && v != [] && |v| <= maxLength && v !in taken
      && (slug ==> forall i :: 0 <= i < |v| ==> IsSlugChar(v[i]))
    ensures r.Clean? ==> r.value == Strip(raw.value)
  {
    match CleanChar(raw, true, false, Some(maxLength))
    case Clean(v) =>
      MatchesSlugIff(v);
      if (slug && !MatchesSlug(v)) || v in taken then Failed else Clean(v)
    case _ => Failed
  }

  /** Subject.name is a SlugField of 80 characters, Tag.name a CharField of 60; both are unique. */
  function CleanTableName(db: DbState, t: NameTable, raw: Option<string>): Cleaned<string> {
    match t
    case SubjectTable => CleanUniqueName(raw, SubjectNameMaxLength, true, NamesOf(db, t).Values)
    case TagTable => CleanUniqueName(raw, TagNameMaxLength, false, NamesOf(db, t).Values)
  }

  // ----- ReviewSerializer -----

  /** What a client submitted for a primary-key related field: an integer, or a value of another type. */
  datatype PkInput = Pk(n: int) | NotPk

  datatype ReviewPayload = ReviewPayload(stars: Option<IntInput>, photo: Option<PkInput>)

  /** Validated review data: only the submitted keys; the user is read-only and comes from the view. */
  datatype ReviewData = ReviewData(stars: Option<int>, photo: Option<Id>)

  /** `photo` as a primary-key related field: the key of an existing photo; anything else is an error. */
  function CleanPhotoKey(raw: Option<PkInput>, required: bool, photos: map<Id, Photo>): (r: Cleaned<Id>)
    ensures r.Omitted? <==> raw.None? && !required
    ensures r.Clean? <==> raw.Some? && raw.value.Pk? && raw.value.n >= 0 && raw.value.n in photos
    ensures r.Clean? ==> r.value == raw.value.n
  {
    match raw
    case None => if required then Failed else Omitted
    case Some(NotPk) => Failed
    case Some(Pk(n)) => if n >= 0 && n in photos then Clean(n) else Failed
  }

  /** The review fields: `stars` with its 1..5 validators, then `photo`. */
  function ValidateReviewFields(db: DbState, p: ReviewPayload, partial: bool): (r: Result<ReviewData, set<string>>)
    ensures "stars" in ErrorsOf(r) <==>
      (p.stars.None? && !partial) || (p.stars.Some? && !(p.stars.value.Int? && StarsInRange(p.stars.value.n)))
    ensures "photo" in ErrorsOf(r) <==>
      (p.photo.None? && !partial) || (p.photo.Some? && !(p.photo.value.Pk? && p.photo.value.n >= 0 && p.photo.value.n in db.photos))
    ensures r.Failure? ==> r.error != {}
    ensures r.Success? ==> ReviewDataValid(db, r.value) && (!partial ==> r.value.stars.Some? && r.value.photo.Some?)
  {
    var stars := CleanBoundedInt(p.stars, !partial, MinStars, MaxStars);
    var photo := CleanPhotoKey(p.photo, !partial, db.photos);
    var errors := ErrorIf("stars", stars) + ErrorIf("photo", photo);
    if errors == {} then Success(ReviewData(stars.ToOption(), photo.ToOption())) else Failure(errors)
  }

  ghost predicate ReviewDataValid(db: DbState, d: ReviewData) {
    && (d.stars.Some? ==> StarsInRange(d.stars.value))
    && (d.photo.Some? ==> d.photo.value in db.photos)
  }

  /** The acting user owns the photo a validated payload names. */
  predicate ReviewsOwnPhoto(db: DbState, d: ReviewData, actor: UserId) {
    d.photo.Some? && d.photo.value in db.photos && db.photos[d.photo.value].user == actor
  }

  /**
   * Field validation, then `validate`: when the data names a photo, its
   * owner may not be the reviewer. The object-level check runs only once
   * every field passed, and a payload without `photo` skips it.
   */
  function ValidateReview(db: DbState, p: ReviewPayload, actor: UserId, partial: bool): (r: Result<ReviewData, Error>)
    ensures var fields := ValidateReviewFields(db, p, partial);
      && (fields.Failure? ==> r == Failure(ValidationError(fields.error)))
      && (r == Failure(NonFieldError(PhotoOwnerReviewMessage)) <==> fields.Success? && ReviewsOwnPhoto(db, fields.value, actor))
      && (r.Success? <==> fields.Success? && !ReviewsOwnPhoto(db, fields.value, actor))
      && (r.Success? ==> r.value == fields.value)
    ensures p.photo.None? ==> r != Failure(NonFieldError(PhotoOwnerReviewMessage))
  {
    match ValidateReviewFields(db, p, partial)
    case Failure(fields) => Failure(ValidationError(fields))
    case Success(d) =>
      if d.photo.Some? && db.photos[d.photo.value].user == actor then Failure(NonFieldError(PhotoOwnerReviewMessage))
      else Success(d)
  }

  /** The row a validated review turns into: supplied keys over the current row, the user fixed. */
  function ReviewRow(current: Review, d: ReviewData): Review {
    Review(d.stars.GetOr(current.stars), d.photo.GetOr(current.photo), current.user)
  }

  // ----- ProfileSerializer -----

  /** `career_name`: optional, blank allowed, stripped, at most 80 characters; `user` is read-only. */
  function CleanCareerName(raw: Option<string>): (r: Cleaned<string>)
    ensures r.Omitted? <==> raw.None?
    ensures r.Clean? <==> raw.Some? && |Strip(raw.value)| <= CareerNameMaxLength
    ensures r.Clean? ==> r.value == Strip(raw.value)
  {
    CleanChar(raw, false, true, Some(CareerNameMaxLength))
  }
}
