/** The user collection: the mapper between raw documents and the entity, and
    the generic Mongo repository over a keyed collection with a unique email
    index (find, save as insert-or-update, delete, exists, count, paginated
    listing, delete by condition). */
module UserPersistence {
  import opened Common
  import opened Exceptions
  import opened Responses
  import opened UserDomain

  /** A document as the mapper receives it: `objectId` is the `_id` field, `id`
      a plain `id` field, and the timestamps may be missing. */
  datatype RawUser = RawUser(objectId: Option<string>, id: Option<string>, email: string, name: string,
                             createdAt: Option<Time>, updatedAt: Option<Time>, deletedAt: Option<Time>)

  /** `UserMapper.toDomain`, at clock reading `now`: the id is `_id` when that is
      truthy and the plain `id` otherwise; missing timestamps become `now`;
      email and name are copied without validation. */
  function ToDomain(raw: RawUser, now: Time): (p: UserProps)
    ensures p.id == (if Truthy(raw.objectId) then raw.objectId else raw.id)
    ensures p.email == raw.email && p.name == raw.name
    ensures p.createdAt == (if raw.createdAt.Some? then raw.createdAt.value else now)
    ensures p.updatedAt == (if raw.updatedAt.Some? then raw.updatedAt.value else now)
    ensures p.deletedAt == raw.deletedAt
  {
    UserProps(if Truthy(raw.objectId) then raw.objectId else raw.id, raw.email, raw.name,
              OrDefault(raw.createdAt, now), OrDefault(raw.updatedAt, now), raw.deletedAt)
  }

  /** `UserMapper.toPersistence`: the entity's own six fields, with no `_id`. */
  function ToPersistence(p: UserProps): (raw: RawUser)
    ensures raw.objectId.None? && raw.id == p.id
  {
    RawUser(None, p.id, p.email, p.name, Some(p.createdAt), Some(p.updatedAt), p.deletedAt)
  }

  /** Mapping an entity out and back in keeps every field, whatever the clock. */
  lemma MapperRoundTrip(p: UserProps, now: Time)
    ensures ToDomain(ToPersistence(p), now) == p
  {
  }

  /** A stored user document; its key is `_id`. */
  datatype UserDoc = UserDoc(email: string, name: string, createdAt: Option<Time>, updatedAt: Option<Time>,
                             deletedAt: Option<Time>)

  type UserDocs = map<string, UserDoc>

  /** The stored fields of a persisted entity. */
  function DocOf(p: UserProps): (d: UserDoc)
    ensures d.email == p.email && d.name == p.name && d.deletedAt == p.deletedAt
  {
    UserDoc(p.email, p.name, Some(p.createdAt), Some(p.updatedAt), p.deletedAt)
  }

  /** A stored document as a lean query returns it and the mapper reads it. */
  function Read(key: string, d: UserDoc, now: Time): (p: UserProps)
    requires key != ""
    ensures p.id == Some(key) && p.email == d.email && p.name == d.name && p.deletedAt == d.deletedAt
  {
    ToDomain(RawUser(Some(key), None, d.email, d.name, d.createdAt, d.updatedAt, d.deletedAt), now)
  }

  /** Storing an entity under `key` and reading it back gives the entity with
      id `key`. */
  lemma StoreRoundTrip(p: UserProps, key: string, now: Time)
    requires key != ""
    ensures Read(key, DocOf(p), now) == p.(id := Some(key))
  {
  }

  /** The unique index on `email`, and no document under the empty key (an
      ObjectId is never empty). */
  ghost predicate WellKeyed(docs: UserDocs) {
    && "" !in docs
    && forall k1, k2 :: k1 in docs && k2 in docs && docs[k1].email == docs[k2].email ==> k1 == k2
  }

  ghost predicate EmailTaken(docs: UserDocs, email: string) {
    exists k :: k in docs && docs[k].email == email
  }

  /** Whether a document other than the one at `except` holds `email`. */
  ghost predicate EmailTakenElsewhere(docs: UserDocs, email: string, except: string) {
    exists k :: k in docs && k != except && docs[k].email == email
  }

  function FindByIdIn(docs: UserDocs, id: string, now: Time): (r: Option<UserProps>)
    requires "" !in docs
    ensures r.Some? <==> id in docs
    ensures r.Some? ==> r.value == Read(id, docs[id], now)
  {
    if id in docs then Some(Read(id, docs[id], now)) else None
  }

  /** `findByEmail` (a `findOne` on the exact email). */
  ghost function FindByEmailIn(docs: UserDocs, email: string, now: Time): (r: Option<UserProps>)
    requires WellKeyed(docs)
    ensures r.Some? <==> EmailTaken(docs, email)
    ensures r.Some? ==> && r.value.id.Some? && r.value.id.value in docs && r.value.email == email
                        && r.value == Read(r.value.id.value, docs[r.value.id.value], now)
  {
    if EmailTaken(docs, email) then
      var k :| k in docs && docs[k].email == email;
      Some(Read(k, docs[k], now))
    else None
  }

  /** The error a null update result raises when the mapper reads its `_id`. */
  const NullReadMessage: string := "Cannot read properties of null (reading '_id')"

  /** `save`: an entity whose persisted `id` is truthy takes the update path
      (find by that id and overwrite; an absent id yields null, which the mapper
      fails on); any other is inserted under the key the store picks. Either
      write fails with the duplicate-key error when another document holds the
      email. */
  ghost function SaveIn(docs: UserDocs, p: UserProps, newKey: string, now: Time): (res: (Result<UserProps, Failure>, UserDocs))
    requires WellKeyed(docs) && newKey != ""
    ensures Truthy(p.id) ==>
              && (p.id.value !in docs ==> res == (Err(Crash(NullReadMessage)), docs))
              && (p.id.value in docs && EmailTakenElsewhere(docs, p.email, p.id.value) ==>
                    res == (Err(Crash(DuplicateKeyMessage)), docs))
              && (p.id.value in docs && !EmailTakenElsewhere(docs, p.email, p.id.value) ==>
                    res == (Ok(p), docs[p.id.value := DocOf(p)]))
    ensures !Truthy(p.id) ==>
              && (newKey in docs || EmailTaken(docs, p.email) ==> res == (Err(Crash(DuplicateKeyMessage)), docs))
              && (newKey !in docs && !EmailTaken(docs, p.email) ==>
                    res == (Ok(p.(id := Some(newKey))), docs[newKey := DocOf(p)]))
    ensures res.0.Err? ==> res.1 == docs
    ensures WellKeyed(res.1)
  {
    if Truthy(p.id) then
      var k := p.id.value;
      if k !in docs then (Err(Crash(NullReadMessage)), docs)
      else if EmailTakenElsewhere(docs, p.email, k) then (Err(Crash(DuplicateKeyMessage)), docs)
      else (Ok(Read(k, DocOf(p), now)), docs[k := DocOf(p)])
    else if newKey in docs || EmailTaken(docs, p.email) then (Err(Crash(DuplicateKeyMessage)), docs)
    else (Ok(Read(newKey, DocOf(p), now)), docs[newKey := DocOf(p)])
  }

  /** Listing options; every field may be absent. */
  datatype PaginationOptions = PaginationOptions(page: Option<int>, limit: Option<int>,
                                                 sortBy: Option<string>, sortOrder: Option<string>)

  /** `options?.page || 1`: an absent or zero page is page 1. */
  function PageOf(options: Option<PaginationOptions>): (page: int)
    ensures page == (if options.Some? && options.value.page.Some? && options.value.page.value != 0
                     then options.value.page.value else 1)
    ensures page != 0
  {
    if options.Some? && options.value.page.Some? && options.value.page.value != 0 then options.value.page.value else 1
  }

  /** `options?.limit || 10`: an absent or zero limit is 10. */
  function LimitOf(options: Option<PaginationOptions>): (limit: int)
    ensures limit == (if options.Some? && options.value.limit.Some? && options.value.limit.value != 0
                      then options.value.limit.value else 10)
    ensures limit != 0
  {
    if options.Some? && options.value.limit.Some? && options.value.limit.value != 0 then options.value.limit.value else 10
  }

  /** The sort the listing asks for: on `sortBy` when it is given, descending
      only for the order "desc". */
  function SortOf(options: Option<PaginationOptions>): (s: Option<(string, int)>)
    ensures s.Some? <==> options.Some? && Truthy(options.value.sortBy)
    ensures s.Some? ==> s.value.0 == options.value.sortBy.value
                        && (s.value.1 == -1 <==> options.value.sortOrder == Some("desc"))
                        && (s.value.1 == 1 <==> options.value.sortOrder != Some("desc"))
  {
    if options.Some? && Truthy(options.value.sortBy) then
      Some((options.value.sortBy.value, if options.value.sortOrder == Some("desc") then -1 else 1))
    else None
  }

  datatype PaginatedResult = PaginatedResult(data: seq<UserProps>, total: nat, page: int, limit: int,
                                             totalPages: JsNumber)

  /** The database server's error message for a negative `skip`, which a query
      whose page is below 1 sends. The source does not spell this text; the
      constant stands for whatever message the server returns, and it reaches
      the client in the 500 body. */
  const NegativeSkipMessage: string := "BadValue: skip value must be non-negative"

  /** The keys in `ordered` list exactly the collection's documents, once each.
      `ordered` stands for the order the database's sort returns. */
  ghost predicate ListsAll(docs: UserDocs, ordered: seq<string>) {
    && |ordered| == |docs|
    && (forall i :: 0 <= i < |ordered| ==> ordered[i] in docs)
    && (forall i, j :: 0 <= i < j < |ordered| ==> ordered[i] != ordered[j])
  }

  /** `findAll`: skip (page − 1) × limit documents of the sorted collection and
      return at most |limit| of them, with the total count, the defaulted page
      and limit, and ⌈total ÷ limit⌉ pages. A negative skip is refused by the
      database. */
  function FindAllIn(docs: UserDocs, options: Option<PaginationOptions>, ordered: seq<string>, now: Time): (r: Result<PaginatedResult, Failure>)
    requires "" !in docs
    requires forall i :: 0 <= i < |ordered| ==> ordered[i] in docs
    ensures var page := PageOf(options); var limit := LimitOf(options); var skip := (page - 1) * limit;
            && (r.Err? <==> skip < 0)
            && (r.Ok? ==> && r.value.page == page && r.value.limit == limit && r.value.total == |docs|
                          && r.value.totalPages == CeilDivide(|docs|, limit)
                          && var n := if limit < 0 then -limit else limit;
                             var from := if skip < |ordered| then skip else |ordered|;
                             var to := if from + n < |ordered| then from + n else |ordered|;
                             && |r.value.data| == to - from
                             && forall i :: 0 <= i < |r.value.data| ==>
                                  r.value.data[i] == Read(ordered[from + i], docs[ordered[from + i]], now))
  {
    var page := PageOf(options);
    var limit := LimitOf(options);
    var skip := (page - 1) * limit;
    if skip < 0 then Err(Crash(NegativeSkipMessage))
    else
      var n := if limit < 0 then -limit else limit;
      var from := if skip < |ordered| then skip else |ordered|;
      var to := if from + n < |ordered| then from + n else |ordered|;
      var rows := ordered[from..to];
      Ok(PaginatedResult(seq(|rows|, i requires 0 <= i < |rows| => Read(rows[i], docs[rows[i]], now)),
                         |docs|, page, limit, CeilDivide(|docs|, limit)))
  }

  /** Without options the listing is the first ten documents of page 1. */
  lemma FindAllDefaults(docs: UserDocs, ordered: seq<string>, now: Time)
    requires "" !in docs && ListsAll(docs, ordered)
    ensures var r := FindAllIn(docs, None, ordered, now);
            && r.Ok? && r.value.page == 1 && r.value.limit == 10
            && |r.value.data| == (if |docs| < 10 then |docs| else 10)
  {
  }

  /** With positive page and limit the pages partition the listing: page p
      holds the documents from position (p − 1) × limit on, the last page is
      ⌈total ÷ limit⌉, and pages past it are empty. */
  lemma FindAllPages(docs: UserDocs, ordered: seq<string>, now: Time, page: int, limit: int)
    requires "" !in docs && ListsAll(docs, ordered)
    requires page >= 1 && limit >= 1
    ensures var r := FindAllIn(docs, Some(PaginationOptions(Some(page), Some(limit), None, None)), ordered, now);
            && r.Ok?
            && r.value.totalPages == Finite(CeilDiv(|docs|, limit))
            && ((page - 1) * limit < |docs| <==> page <= CeilDiv(|docs|, limit))
            && (page > CeilDiv(|docs|, limit) ==> r.value.data == [])
  {
    PageArithmetic(|docs|, page, limit);
  }

  /** Page `page` starts before the `n`-th item exactly when it is at most
      ⌈n ÷ limit⌉. */
  lemma PageArithmetic(n: nat, page: int, limit: int)
    requires page >= 1 && limit >= 1
    ensures (page - 1) * limit >= 0
    ensures (page - 1) * limit < n <==> page <= CeilDiv(n, limit)
  {
    var t := CeilDiv(n, limit);
    assert (t - 1) * limit < n <= t * limit;
    if page <= t {
      assert (page - 1) * limit <= (t - 1) * limit;
    } else {
      assert (page - 1) * limit >= t * limit;
    }
  }

  class UserRepository {
    var docs: UserDocs

    ghost predicate Valid()
      reads this
    {
      WellKeyed(docs)
    }

    constructor ()
      ensures docs == map[] && Valid()
    {
      docs := map[];
    }

    /** `findById`, reading the document at clock reading `now`. */
    method FindById(id: string, now: Time) returns (u: Option<UserEntity>)
      requires Valid()
      ensures u.Some? ==> fresh(u.value)
      ensures (if u.Some? then Some(u.value.ToPersistence()) else None) == FindByIdIn(docs, id, now)
    {
      if id in docs {
        var user := new UserEntity.FromPersistence(Read(id, docs[id], now));
        u := Some(user);
      } else {
        u := None;
      }
    }

    method FindByEmail(email: string, now: Time) returns (u: Option<UserEntity>)
      requires Valid()
      ensures u.Some? ==> fresh(u.value)
      ensures (if u.Some? then Some(u.value.ToPersistence()) else None) == FindByEmailIn(docs, email, now)
    {
      if k :| k in docs && docs[k].email == email {
        var user := new UserEntity.FromPersistence(Read(k, docs[k], now));
        u := Some(user);
      } else {
        u := None;
      }
    }

    /** `existsByEmail`: a count of documents with that exact email above zero. */
    method ExistsByEmail(email: string) returns (b: bool)
      ensures b <==> EmailTaken(docs, email)
    {
      b := exists k :: k in docs && docs[k].email == email;
    }

    /** `exists`: a count of documents under that key above zero. */
    method Exists(id: string) returns (b: bool)
      ensures b <==> id in docs
    {
      b := id in docs;
    }

    method Count() returns (n: nat)
      ensures n == |docs|
    {
      n := |docs|;
    }

    /** `delete` (`findByIdAndDelete`): an absent key is a no-op. */
    method Delete(id: string)
      requires Valid()
      modifies this
      ensures Valid()
      ensures docs == old(docs) - {id}
    {
      docs := docs - {id};
    }

    /** `save`, with `newKey` standing for the ObjectId an insert generates. */
    method Save(entity: UserEntity, newKey: string, now: Time) returns (r: Result<UserEntity, Failure>)
      requires Valid() && newKey != ""
      modifies this
      ensures Valid()
      ensures r.Ok? ==> fresh(r.value)
      ensures ((if r.Ok? then Ok(r.value.ToPersistence()) else Err(r.error)), docs)
              == SaveIn(old(docs), entity.ToPersistence(), newKey, now)
    {
      var p := entity.ToPersistence();
      var data := ToPersistence(p);
      var key := if Truthy(data.id) then data.id else data.objectId;
      if Truthy(key) {
        var k := key.value;
        if k !in docs {
          return Err(Crash(NullReadMessage));
        }
        if exists j :: j in docs && j != k && docs[j].email == p.email {
          return Err(Crash(DuplicateKeyMessage));
        }
        docs := docs[k := DocOf(p)];
        var saved := new UserEntity.FromPersistence(Read(k, DocOf(p), now));
        r := Ok(saved);
      } else {
        if newKey in docs || exists j :: j in docs && docs[j].email == p.email {
          return Err(Crash(DuplicateKeyMessage));
        }
        docs := docs[newKey := DocOf(p)];
        var created := new UserEntity.FromPersistence(Read(newKey, DocOf(p), now));
        r := Ok(created);
      }
    }

    /** `findAll`, with `ordered` standing for the order the database's sort
        (see SortOf) returns the documents in. */
    method FindAll(options: Option<PaginationOptions>, ordered: seq<string>, now: Time) returns (r: Result<PaginatedResult, Failure>)
      requires Valid() && ListsAll(docs, ordered)
      ensures r == FindAllIn(docs, options, ordered, now)
    {
      var page := PageOf(options);
      var limit := LimitOf(options);
      var skip := (page - 1) * limit;
      if skip < 0 {
        return Err(Crash(NegativeSkipMessage));
      }
      var n := if limit < 0 then -limit else limit;
      var from := if skip < |ordered| then skip else |ordered|;
      var to := if from + n < |ordered| then from + n else |ordered|;
      var rows := ordered[from..to];
      var store := docs;
      var data := seq(|rows|, i requires 0 <= i < |rows| => Read(rows[i], store[rows[i]], now));
      var total := |docs|;
      r := Ok(PaginatedResult(data, total, page, limit, CeilDivide(total, limit)));
    }

    /** `deleteManyByCondition`: removes every document the filter selects and
        returns how many there were. */
    method DeleteManyByCondition(filter: UserDoc -> bool) returns (count: nat)
      requires Valid()
      modifies this
      ensures Valid()
      ensures docs == map k | k in old(docs) && !filter(old(docs)[k]) :: old(docs)[k]
      ensures count == |set k | k in old(docs) && filter(old(docs)[k])|
      ensures count + |docs| == |old(docs)|
    {
      var removed := set k | k in docs && filter(docs[k]);
      var kept := map k | k in docs && !filter(docs[k]) :: docs[k];
      assert kept.Keys == docs.Keys - removed;
      assert docs.Keys == kept.Keys + removed;
      count := |removed|;
      docs := kept;
    }
  }
}
