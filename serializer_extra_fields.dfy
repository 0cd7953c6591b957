/**
 * A slug-related serializer field that, instead of refusing an unknown slug,
 * creates the row: it runs its internal validators on the submitted value,
 * in order, and then does get-or-create on the slug column. The slug column
 * of both tables it is used on (subjects and tags) is `name`.
 */
module ExtraFields {
  import opened Outcomes
  import opened Models
  import opened Store

  /**
   * What a client submitted for a related field: a string, null, or any other
   * JSON value (a number, a boolean, a list, an object). The lookup does not
   * refuse the last kind: the column's `get_prep_value` turns it into text
   * with `str()`, and `Converted` carries that text.
   */
  datatype RawValue = Text(s: string) | Converted(s: string) | Null

  /** What an internal validator does with a value: passes, raises ValidationError, or raises TypeError/ValueError. */
  datatype Check = Accept | Reject | Fault

  type Validator = RawValue -> Check

  /**
   * How the field fails: a validator's ValidationError propagates as
   * Rejected; a TypeError or ValueError is caught and reported as the
   * field's `invalid` error. DatabaseError is the insert of get-or-create
   * breaking a column constraint (a null name, or a name longer than its
   * varchar column): the IntegrityError or DataError is not one the field
   * catches, so it ends the request as a 500.
   */
  datatype FieldError = Rejected | Invalid | DatabaseError

  /** Whether the name column accepts a value: not null and no longer than its width. */
  predicate Storable(t: NameTable, data: RawValue) {
    !data.Null? && |data.s| <= NameColumnWidth(t)
  }

  /** The verdict of running validators in order: the first one that does not accept. */
  function Screen(validators: seq<Validator>, data: RawValue): (c: Check)
    ensures c == Accept <==> forall i :: 0 <= i < |validators| ==> validators[i](data) == Accept
    ensures c != Accept ==> exists i :: (0 <= i < |validators| && validators[i](data) == c
                                          && forall j :: 0 <= j < i ==> validators[j](data) == Accept)
  {
    if validators == [] then Accept
    else if validators[0](data) != Accept then validators[0](data)
    else
      var rest := Screen(validators[1..], data);
      assert forall i :: 1 <= i < |validators| ==> validators[i] == validators[1..][i - 1];
      if rest != Accept then
        ghost var k :| 0 <= k < |validators[1..]| && validators[1..][k](data) == rest
          && forall j :: 0 <= j < k ==> validators[1..][j](data) == Accept;
        assert validators[k + 1](data) == rest;
        rest
      else rest
  }

  /**
   * What `to_internal_value` does to a snapshot: validators first, then
   * get-or-create by name, which looks the name up and inserts it when no
   * row carries it. A null is looked up as IS NULL, which finds nothing, and
   * its insert breaks NOT NULL; a name longer than the column is found
   * nowhere either, and its insert is too long for the column.
   */
  ghost function Resolve(db: DbState, t: NameTable, validators: seq<Validator>, data: RawValue): (res: (DbState, Result<Id, FieldError>))
    ensures var (after, r) := res;
      && (r.Success? <==> Screen(validators, data) == Accept && !data.Null?
                          && (data.s in NamesOf(db, t).Values || |data.s| <= NameColumnWidth(t)))
      && (r == Failure(Rejected) <==> Screen(validators, data) == Reject)
      && (r == Failure(Invalid) <==> Screen(validators, data) == Fault)
      && (r.Failure? ==> after == db)
      && (r.Success? ==> r.value in NamesOf(after, t) && NamesOf(after, t)[r.value] == data.s)
      && after == db.(subjects := after.subjects, tags := after.tags, nextId := after.nextId) && after.nextId >= db.nextId
      && (t == SubjectTable ==> after.tags == db.tags) && (t == TagTable ==> after.subjects == db.subjects)
  {
    match Screen(validators, data)
    case Reject => (db, Failure(Rejected))
    case Fault => (db, Failure(Invalid))
    case Accept =>
      if data.Null? then (db, Failure(DatabaseError))
      else if data.s !in NamesOf(db, t).Values && |data.s| > NameColumnWidth(t) then (db, Failure(DatabaseError))
      else
        var (after, id) := GetOrCreateName(db, t, data.s);
        (after, Success(id))
  }

  /** On a consistent store, a value the validators accept resolves exactly when the column accepts it; otherwise the database refuses it. */
  lemma ResolveStorable(db: DbState, t: NameTable, validators: seq<Validator>, data: RawValue)
    requires Consistent(db)
    ensures var r := Resolve(db, t, validators, data).1;
      && (r.Success? <==> Screen(validators, data) == Accept && Storable(t, data))
      && (r == Failure(DatabaseError) <==> Screen(validators, data) == Accept && !Storable(t, data))
  {
    if !data.Null? && data.s in NamesOf(db, t).Values {
      TakenNameFits(db, t, data.s);
    }
  }

  /** Resolution never changes an existing row and adds at most the resolved one, under a fresh key. */
  lemma ResolveFrame(db: DbState, t: NameTable, validators: seq<Validator>, data: RawValue)
    requires IdsFresh(db)
    ensures var (after, r) := Resolve(db, t, validators, data);
      && IdsFresh(after)
      && (forall k :: k in NamesOf(db, t) ==> k in NamesOf(after, t) && NamesOf(after, t)[k] == NamesOf(db, t)[k])
      && (r.Success? ==> NamesOf(after, t).Keys <= NamesOf(db, t).Keys + {r.value})
  {
    if Resolve(db, t, validators, data).1.Success? {
      GetOrCreateNameFrame(db, t, data.s);
    }
  }

  /** Resolution keeps every constraint, and a resolved row is the only one carrying its name. */
  lemma ResolveEffect(db: DbState, t: NameTable, validators: seq<Validator>, data: RawValue)
    requires Consistent(db)
    ensures var (after, r) := Resolve(db, t, validators, data);
      && Consistent(after)
      && (r.Success? ==> forall k :: k in NamesOf(after, t) && NamesOf(after, t)[k] == data.s ==> k == r.value)
  {
    if Resolve(db, t, validators, data).1.Success? {
      ResolveStorable(db, t, validators, data);
      GetOrCreateNameEffect(db, t, data.s);
    }
  }

  /** Resolving the same value a second time returns the same row and leaves the store as the first call left it. */
  lemma {:induction false} ResolveIdempotent(db: DbState, t: NameTable, validators: seq<Validator>, data: RawValue)
    requires Consistent(db)
    ensures var (after, r) := Resolve(db, t, validators, data);
      Resolve(after, t, validators, data) == (after, r)
  {
    if Resolve(db, t, validators, data).1.Success? {
      ResolveStorable(db, t, validators, data);
      GetOrCreateNameIdempotent(db, t, data.s);
    }
  }

  class SlugGetOrCreateRelatedField {
    /** The queryset the field resolves against. */
    const table: NameTable
    const internalValidators: seq<Validator>

    /** A missing or empty validator list leaves the field with no validators. */
    constructor (table: NameTable, internalValidators: Option<seq<Validator>>)
      ensures this.table == table
      ensures this.internalValidators == internalValidators.GetOr([])
    {
      this.table := table;
      this.internalValidators := if internalValidators.None? || internalValidators.value == [] then [] else internalValidators.value;
    }

    /** Runs every validator in order and then the get-or-create; errors are reported, not raised. */
    method ToInternalValue(store: Store, data: RawValue) returns (r: Result<Id, FieldError>)
      requires store.Valid()
      modifies store
      ensures store.Valid()
      ensures (store.db, r) == Resolve(old(store.db), table, internalValidators, data)
    {
      for i := 0 to |internalValidators|
        invariant forall j :: 0 <= j < i ==> internalValidators[j](data) == Accept
      {
        var verdict := internalValidators[i](data);
        if verdict == Reject {
          return Failure(Rejected);
        } else if verdict == Fault {
          return Failure(Invalid);
        }
      }
      if data.Null? {
        return Failure(DatabaseError);
      }
      var found := store.LookupName(table, data.s);
      if found.Some? {
        r := Success(found.value);
      } else if |data.s| > NameColumnWidth(table) {
        r := Failure(DatabaseError);
      } else {
        var id := store.InsertName(table, data.s);
        r := Success(id);
      }
    }
  }
}
