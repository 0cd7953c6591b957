/**
 * The entities of the formulas app, their declared ranges and choices, the
 * upload path of a photo's file, and the invariants the stored data keeps
 * (the database's constraints and the model's validators) as predicates over
 * a snapshot of all tables.
 */
module Models {
  import opened Outcomes

  /** Primary keys. One counter hands them out for every table. */
  type Id = nat

  /** Primary key of an authenticated user (the user table is not modelled). */
  type UserId = nat

  const SubjectNameMaxLength := 80
  const PhotoNameMaxLength := 120
  const ProfessorMaxLength := 60
  const TagNameMaxLength := 60
  const CareerNameMaxLength := 80

  const MinExamNumber := 1
  const MaxExamNumber := 6
  const MinStars := 1
  const MaxStars := 5

  predicate ExamNumberInRange(n: int) {
    MinExamNumber <= n <= MaxExamNumber
  }

  predicate StarsInRange(n: int) {
    MinStars <= n <= MaxStars
  }

  datatype Profile = Profile(user: UserId, careerName: string)

  datatype Subject = Subject(name: string)

  datatype PhotoClassification = PhotoClassification(subject: Id, examNumber: int)

  /** The choices of PhotoContext.formula_type. */
  datatype FormulaType = OneFormula | MultipleFormulas | ExerciceFormula | GraphicFormula {
    /** The two-letter code stored in the database. */
    function Code(): string {
      match this
      case OneFormula => "F1"
      case MultipleFormulas => "FM"
      case ExerciceFormula => "FE"
      case GraphicFormula => "FG"
    }
  }

  /** The choice a stored code stands for, if any. */
  function ParseFormulaType(code: string): (r: Option<FormulaType>)
    ensures r.Some? ==> r.value.Code() == code
    ensures r.None? ==> forall t: FormulaType :: t.Code() != code
  {
    if code == "F1" then Some(OneFormula)
    else if code == "FM" then Some(MultipleFormulas)
    else if code == "FE" then Some(ExerciceFormula)
    else if code == "FG" then Some(GraphicFormula)
    else None
  }

  /** formula_type is blank or the code of one of the four choices. */
  predicate IsFormulaTypeChoice(code: string) {
    code == "" || ParseFormulaType(code).Some?
  }

  /** Every code parses back to its choice, and no two choices share a code. */
  lemma FormulaTypeCodesRoundTrip(t: FormulaType, u: FormulaType)
    ensures ParseFormulaType(t.Code()) == Some(t)
    ensures IsFormulaTypeChoice(t.Code())
    ensures t.Code() == u.Code() ==> t == u
  {
  }

  /** formula_type and professor are both blank by default. */
  datatype PhotoContext = PhotoContext(formulaType: string, professor: string)

  datatype Tag = Tag(name: string)

  /**
   * A photo row. `file` is the storage path of its image, if any; `tags` is
   * the many-to-many relation to Tag.
   */
  datatype Photo = Photo(
    file: Option<string>,
    name: string,
    description: string,
    classification: Id,
    context: Option<Id>,
    user: UserId,
    tags: set<Id>)

  datatype Review = Review(stars: int, photo: Id, user: UserId)

  // ----- decimal rendering of a primary key, as Python's str(int) -----

  predicate IsDigit(c: char) {
    '0' <= c <= '9'
  }

  predicate IsDigits(s: string) {
    forall i :: 0 <= i < |s| ==> IsDigit(s[i])
  }

  function DigitChar(d: nat): (c: char)
    requires d < 10
    ensures IsDigit(c)
  {
    (('0' as int) + d) as char
  }

  function NatToString(n: nat): (r: string)
    ensures |r| >= 1 && IsDigits(r)
  {
    if n < 10 then [DigitChar(n)] else NatToString(n / 10) + [DigitChar(n % 10)]
  }

  /** The number a string of decimal digits denotes. */
  function DigitsValue(s: string): nat
    requires IsDigits(s)
  {
    if s == [] then 0 else 10 * DigitsValue(s[..|s| - 1]) + ((s[|s| - 1] as int) - ('0' as int))
  }

  lemma {:induction false} NatToStringRoundTrip(n: nat)
    ensures DigitsValue(NatToString(n)) == n
  {
    if n >= 10 {
      NatToStringRoundTrip(n / 10);
      var s := NatToString(n);
      assert s[..|s| - 1] == NatToString(n / 10);
    }
  }

  /** The storage path a photo's uploaded file is saved under. */
  function UserPhotosDirectoryPath(instance: Photo, filename: string): string {
    "user_" + NatToString(instance.user) + "/photos/" + filename
  }

  /** Position of the first '/' in a string, or its length when there is none. */
  function FirstSlash(s: string): (k: nat)
    ensures k <= |s|
  {
    if s == [] || s[0] == '/' then 0 else 1 + FirstSlash(s[1..])
  }

  lemma {:induction false} FirstSlashAfterDigits(a: string, t: string)
    requires IsDigits(a)
    requires t != [] && t[0] == '/'
    ensures FirstSlash(a + t) == |a|
  {
    if a != [] {
      assert (a + t)[1..] == a[1..] + t;
      FirstSlashAfterDigits(a[1..], t);
    }
  }

  lemma SplitAtSlash(a: string, b: string, f: string, g: string)
    requires IsDigits(a) && IsDigits(b)
    requires a + "/photos/" + f == b + "/photos/" + g
    ensures a == b && f == g
  {
    var x, y := a + ("/photos/" + f), b + ("/photos/" + g);
    assert x == a + "/photos/" + f && y == b + "/photos/" + g;
    FirstSlashAfterDigits(a, "/photos/" + f);
    FirstSlashAfterDigits(b, "/photos/" + g);
    assert a == x[..|a|] && b == y[..|b|];
    assert f == x[|a| + 8..] && g == y[|b| + 8..];
  }

  /**
   * Two uploads land on the same path only if they belong to the same user
   * and carry the same file name: users' directories never overlap.
   */
  lemma UserPhotosDirectoryPathInjective(p: Photo, f: string, q: Photo, g: string)
    requires UserPhotosDirectoryPath(p, f) == UserPhotosDirectoryPath(q, g)
    ensures p.user == q.user && f == g
  {
    var a, b := NatToString(p.user), NatToString(q.user);
    var x := UserPhotosDirectoryPath(p, f);
    assert x == "user_" + (a + "/photos/" + f);
    assert x == "user_" + (b + "/photos/" + g);
    assert x[5..] == a + "/photos/" + f;
    assert x[5..] == b + "/photos/" + g;
    SplitAtSlash(a, b, f, g);
    NatToStringRoundTrip(p.user);
    NatToStringRoundTrip(q.user);
  }

  // ----- a snapshot of every table -----

  datatype DbState = DbState(
    subjects: map<Id, Subject>,
    classifications: map<Id, PhotoClassification>,
    contexts: map<Id, PhotoContext>,
    tags: map<Id, Tag>,
    photos: map<Id, Photo>,
    reviews: map<Id, Review>,
    profiles: map<Id, Profile>,
    files: set<string>,
    nextId: Id)

  const EmptyDb := DbState(map[], map[], map[], map[], map[], map[], map[], {}, 0)

  /** The two tables whose rows are reached by their unique name. */
  datatype NameTable = SubjectTable | TagTable

  function SubjectNames(subjects: map<Id, Subject>): map<Id, string> {
    map id | id in subjects :: subjects[id].name
  }

  function TagNames(tags: map<Id, Tag>): map<Id, string> {
    map id | id in tags :: tags[id].name
  }

  /** The `name` column of a named table. */
  function NamesOf(db: DbState, t: NameTable): map<Id, string> {
    match t
    case SubjectTable => SubjectNames(db.subjects)
    case TagTable => TagNames(db.tags)
  }

  /** The varchar width of a table's `name` column. */
  function NameColumnWidth(t: NameTable): nat {
    match t
    case SubjectTable => SubjectNameMaxLength
    case TagTable => TagNameMaxLength
  }

  // ----- the constraints the schema declares, and the model's validators -----

  ghost predicate KeysBelow<T>(m: map<Id, T>, bound: nat) {
    forall id :: id in m ==> id < bound
  }

  /** Subject.name and Tag.name are declared unique. */
  ghost predicate NamesUnique(names: map<Id, string>) {
    forall a, b :: a in names && b in names && names[a] == names[b] ==> a == b
  }

  /** A varchar column holds no value longer than its width. */
  ghost predicate NamesFit(names: map<Id, string>, width: nat) {
    forall k :: k in names ==> |names[k]| <= width
  }

  /** The UniqueConstraint on (subject, exam_number). */
  ghost predicate ClassificationKeysUnique(cs: map<Id, PhotoClassification>) {
    forall a, b :: a in cs && b in cs && cs[a].subject == cs[b].subject && cs[a].examNumber == cs[b].examNumber ==> a == b
  }

  /** Foreign key to Subject, and the 1..6 validators on exam_number. */
  ghost predicate ClassificationsWellFormed(cs: map<Id, PhotoClassification>, subjects: map<Id, Subject>) {
    forall c :: c in cs ==> cs[c].subject in subjects && ExamNumberInRange(cs[c].examNumber)
  }

  /** formula_type is restricted to its choices, and professor is a varchar(60). */
  predicate ContextRowValid(c: PhotoContext) {
    IsFormulaTypeChoice(c.formulaType) && |c.professor| <= ProfessorMaxLength
  }

  ghost predicate ContextsWellFormed(contexts: map<Id, PhotoContext>) {
    forall c :: c in contexts ==> ContextRowValid(contexts[c])
  }

  /** Foreign keys of a photo: its classification, its optional context, its tags. */
  ghost predicate PhotoRefsValid(p: Photo, cs: map<Id, PhotoClassification>, contexts: map<Id, PhotoContext>, tags: map<Id, Tag>) {
    && p.classification in cs
    && (p.context.Some? ==> p.context.value in contexts)
    && p.tags <= tags.Keys
  }

  /** The foreign keys of every photo, and its name, a varchar(120). */
  ghost predicate PhotosWellFormed(photos: map<Id, Photo>, cs: map<Id, PhotoClassification>, contexts: map<Id, PhotoContext>, tags: map<Id, Tag>) {
    forall p :: p in photos ==> PhotoRefsValid(photos[p], cs, contexts, tags) && |photos[p].name| <= PhotoNameMaxLength
  }

  /** photo_context is a nullable one-to-one field: no context is shared by two photos. */
  ghost predicate ContextsOneToOne(photos: map<Id, Photo>) {
    forall a, b :: a in photos && b in photos && photos[a].context.Some? && photos[a].context == photos[b].context ==> a == b
  }

  /** The 1..5 validators on stars, and the foreign key to Photo. */
  ghost predicate ReviewsWellFormed(reviews: map<Id, Review>, photos: map<Id, Photo>) {
    forall r :: r in reviews ==> StarsInRange(reviews[r].stars) && reviews[r].photo in photos
  }

  /** The UniqueConstraint "one review per photo" on (photo, user). */
  ghost predicate ReviewKeysUnique(reviews: map<Id, Review>) {
    forall a, b :: a in reviews && b in reviews && reviews[a].photo == reviews[b].photo && reviews[a].user == reviews[b].user ==> a == b
  }

  /** Profile.career_name is a varchar(80). */
  ghost predicate ProfilesWellFormed(profiles: map<Id, Profile>) {
    forall p :: p in profiles ==> |profiles[p].careerName| <= CareerNameMaxLength
  }

  /** Profile.user is a one-to-one field. */
  ghost predicate ProfilesOneToOne(profiles: map<Id, Profile>) {
    forall a, b :: a in profiles && b in profiles && profiles[a].user == profiles[b].user ==> a == b
  }

  ghost predicate IdsFresh(db: DbState) {
    && KeysBelow(db.subjects, db.nextId)
    && KeysBelow(db.classifications, db.nextId)
    && KeysBelow(db.contexts, db.nextId)
    && KeysBelow(db.tags, db.nextId)
    && KeysBelow(db.photos, db.nextId)
    && KeysBelow(db.reviews, db.nextId)
    && KeysBelow(db.profiles, db.nextId)
  }

  /** Every constraint of the schema holds, and so does every value range the model's validators impose. */
  ghost predicate Consistent(db: DbState) {
    && NamesUnique(SubjectNames(db.subjects))
    && NamesUnique(TagNames(db.tags))
    && NamesFit(SubjectNames(db.subjects), SubjectNameMaxLength)
    && NamesFit(TagNames(db.tags), TagNameMaxLength)
    && ClassificationKeysUnique(db.classifications)
    && ClassificationsWellFormed(db.classifications, db.subjects)
    && ContextsWellFormed(db.contexts)
    && PhotosWellFormed(db.photos, db.classifications, db.contexts, db.tags)
    && ContextsOneToOne(db.photos)
    && ReviewsWellFormed(db.reviews, db.photos)
    && ReviewKeysUnique(db.reviews)
    && ProfilesOneToOne(db.profiles)
    && ProfilesWellFormed(db.profiles)
    && IdsFresh(db)
  }

  lemma EmptyDbConsistent()
    ensures Consistent(EmptyDb)
  {
  }

  // ----- navigation used by the filters and the search view -----

  /** The classification a photo references, if both rows exist. */
  function ClassificationOf(db: DbState, p: Id): Option<PhotoClassification> {
    if p in db.photos && db.photos[p].classification in db.classifications
    then Some(db.classifications[db.photos[p].classification]) else None
  }

  /** photo.photo_classification.subject.name */
  function PhotoSubjectName(db: DbState, p: Id): Option<string> {
    match ClassificationOf(db, p)
    case Some(c) => if c.subject in db.subjects then Some(db.subjects[c.subject].name) else None
    case None => None
  }

  /** photo.photo_classification.exam_number */
  function PhotoExamNumber(db: DbState, p: Id): Option<int> {
    match ClassificationOf(db, p)
    case Some(c) => Some(c.examNumber)
    case None => None
  }

  /** The names of the tags a photo carries. */
  function PhotoTagNames(db: DbState, p: Id): set<string> {
    if p in db.photos then set t | t in db.photos[p].tags && t in db.tags :: db.tags[t].name else {}
  }
}
