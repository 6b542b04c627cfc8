/** The credential store: the persisted document, the mapper between it and the
    entity, and the repository over a keyed collection with a unique email
    index. Keys are chosen by the store on insert. */
module AuthPersistence {
  import opened Common
  import opened Exceptions
  import opened AuthDomain

  /** A stored credential document; its key is the collection's `_id`. */
  datatype AuthDoc = AuthDoc(email: string, password: string, refreshToken: Option<string>,
                             lastLoginAt: Option<Time>)

  type AuthDocs = map<string, AuthDoc>

  /** `AuthMapper.toPersistence`: the four data fields; the id is dropped. */
  function ToPersistence(r: AuthRecord): (d: AuthDoc)
    ensures d.email == r.email && d.password == r.password
    ensures d.refreshToken == r.refreshToken && d.lastLoginAt == r.lastLoginAt
  {
    AuthDoc(r.email, r.password, r.refreshToken, r.lastLoginAt)
  }

  /** `AuthMapper.toDomain`: the id is the document's key, the rest copied. */
  function ToDomain(key: string, d: AuthDoc): (r: AuthRecord)
    ensures r.id == Some(key)
    ensures r.email == d.email && r.password == d.password
    ensures r.refreshToken == d.refreshToken && r.lastLoginAt == d.lastLoginAt
  {
    AuthRecord(Some(key), d.email, d.password, d.refreshToken, d.lastLoginAt)
  }

  /** Persisting under key `k` and reading back keeps the four data fields and
      replaces the id by `k`, whatever id the entity had. */
  lemma MapperRoundTrip(r: AuthRecord, key: string)
    ensures ToDomain(key, ToPersistence(r)) == r.(id := Some(key))
  {
  }

  /** Reading a document and persisting it again gives the same document. */
  lemma DocRoundTrip(key: string, d: AuthDoc)
    ensures ToPersistence(ToDomain(key, d)) == d
  {
  }

  /** The unique index on `email`. */
  ghost predicate UniqueEmails(docs: AuthDocs) {
    forall k1, k2 :: k1 in docs && k2 in docs && docs[k1].email == docs[k2].email ==> k1 == k2
  }

  ghost predicate EmailTaken(docs: AuthDocs, email: string) {
    exists k :: k in docs && docs[k].email == email
  }

  /** The key of the document holding exactly `email`, if any. */
  ghost function KeyOfEmail(docs: AuthDocs, email: string): (k: Option<string>)
    ensures k.Some? <==> EmailTaken(docs, email)
    ensures k.Some? ==> k.value in docs && docs[k.value].email == email
  {
    if EmailTaken(docs, email) then Some(var k :| k in docs && docs[k].email == email; k) else None
  }

  /** `findByEmail`: an exact match on the stored email, no normalization. */
  ghost function FindByEmailIn(docs: AuthDocs, email: string): (r: Option<AuthRecord>)
    ensures r.Some? <==> EmailTaken(docs, email)
    ensures r.Some? ==> r.value.email == email && r.value.id.Some? && r.value.id.value in docs
                        && r.value == ToDomain(r.value.id.value, docs[r.value.id.value])
  {
    var k := KeyOfEmail(docs, email);
    if k.Some? then Some(ToDomain(k.value, docs[k.value])) else None
  }

  /** `findById`: null when the key is absent. */
  function FindByIdIn(docs: AuthDocs, id: string): (r: Option<AuthRecord>)
    ensures r.Some? <==> id in docs
    ensures r.Some? ==> r.value == ToDomain(id, docs[id])
  {
    if id in docs then Some(ToDomain(id, docs[id])) else None
  }

  /** `save`: always an insert of the mapped document under the key the store
      picks, so the entity's own id never reaches storage. A taken key or a taken
      email fails with the duplicate-key error and changes nothing. */
  ghost function SaveIn(docs: AuthDocs, r: AuthRecord, newKey: string): (res: (Result<AuthRecord, Failure>, AuthDocs))
    ensures res.0.Ok? <==> newKey !in docs && !EmailTaken(docs, r.email)
    ensures res.0.Ok? ==> res.0.value == r.(id := Some(newKey)) && res.1 == docs[newKey := ToPersistence(r)]
    ensures res.0.Err? ==> res.0.error == Crash(DuplicateKeyMessage) && res.1 == docs
  {
    if newKey in docs || EmailTaken(docs, r.email) then (Err(Crash(DuplicateKeyMessage)), docs)
    else (Ok(ToDomain(newKey, ToPersistence(r))), docs[newKey := ToPersistence(r)])
  }

  /** `updateRefreshToken`: only that document's token changes, and an absent key
      is a silent no-op. */
  function UpdateRefreshTokenIn(docs: AuthDocs, id: string, token: Option<string>): (d: AuthDocs)
    ensures d.Keys == docs.Keys
    ensures forall k :: k in docs && k != id ==> d[k] == docs[k]
    ensures id in docs ==> d[id] == docs[id].(refreshToken := token)
  {
    if id in docs then docs[id := docs[id].(refreshToken := token)] else docs
  }

  /** Inserting keeps the email index unique. */
  lemma SavePreservesUnique(docs: AuthDocs, r: AuthRecord, newKey: string)
    requires UniqueEmails(docs)
    ensures UniqueEmails(SaveIn(docs, r, newKey).1)
  {
  }

  /** Token updates never touch an email, so the index stays unique. */
  lemma UpdatePreservesUnique(docs: AuthDocs, id: string, token: Option<string>)
    requires UniqueEmails(docs)
    ensures UniqueEmails(UpdateRefreshTokenIn(docs, id, token))
  {
  }

  /** Two token updates of the same key: the second one wins. */
  lemma UpdateTwice(docs: AuthDocs, id: string, t1: Option<string>, t2: Option<string>)
    ensures UpdateRefreshTokenIn(UpdateRefreshTokenIn(docs, id, t1), id, t2) == UpdateRefreshTokenIn(docs, id, t2)
  {
  }

  class AuthRepository {
    var docs: AuthDocs

    ghost predicate Valid()
      reads this
    {
      UniqueEmails(docs)
    }

    constructor ()
      ensures docs == map[] && Valid()
    {
      docs := map[];
    }

    /** `findByEmail`, returning a new entity for the matching document. */
    method FindByEmail(email: string) returns (e: Option<AuthEntity>)
      requires Valid()
      ensures e.Some? ==> fresh(e.value)
      ensures (if e.Some? then Some(e.value.Record()) else None) == FindByEmailIn(docs, email)
    {
      if k :| k in docs && docs[k].email == email {
        var entity := new AuthEntity.FromRecord(ToDomain(k, docs[k]));
        e := Some(entity);
      } else {
        e := None;
      }
    }

    method FindById(id: string) returns (e: Option<AuthEntity>)
      ensures e.Some? ==> fresh(e.value)
      ensures (if e.Some? then Some(e.value.Record()) else None) == FindByIdIn(docs, id)
    {
      if id in docs {
        var entity := new AuthEntity.FromRecord(ToDomain(id, docs[id]));
        e := Some(entity);
      } else {
        e := None;
      }
    }

    /** `save`, with `newKey` standing for the ObjectId the store generates. */
    method Save(entity: AuthEntity, newKey: string) returns (r: Result<AuthEntity, Failure>)
      requires Valid()
      modifies this
      ensures Valid()
      ensures r.Ok? ==> fresh(r.value)
      ensures ((if r.Ok? then Ok(r.value.Record()) else Err(r.error)), docs) == SaveIn(old(docs), entity.Record(), newKey)
    {
      var data := ToPersistence(entity.Record());
      if newKey in docs || exists k :: k in docs && docs[k].email == data.email {
        r := Err(Crash(DuplicateKeyMessage));
      } else {
        SavePreservesUnique(docs, entity.Record(), newKey);
        docs := docs[newKey := data];
        var saved := new AuthEntity.FromRecord(ToDomain(newKey, data));
        r := Ok(saved);
      }
    }

    method UpdateRefreshToken(id: string, token: Option<string>)
      requires Valid()
      modifies this
      ensures Valid()
      ensures docs == UpdateRefreshTokenIn(old(docs), id, token)
    {
      UpdatePreservesUnique(docs, id, token);
      if id in docs {
        docs := docs[id := docs[id].(refreshToken := token)];
      }
    }
  }
}
