/**
 * Mason-bass records (contractors with a discount code). Codes are unique
 * across records: creation refuses a code in use, and an update refuses a
 * code held by a different record.
 */
module MasonBasses {
  import opened Types
  import opened Store

  /** Some record holds `code`. */
  predicate CodeInUse(basses: map<BassId, MasonBass>, code: string) {
    exists m :: m in basses && basses[m].code == code
  }

  /**
   * The duplicate lookup an update makes: a record other than `id` whose
   * code is `code`. An absent code drops out of the lookup, which then
   * matches every other record.
   */
  predicate CodeClash(basses: map<BassId, MasonBass>, id: int, code: Option<string>) {
    exists m :: m in basses && m != id && (code.None? || basses[m].code == code.value)
  }

  /** A record may always keep its own code: in a table with unique codes, no other record holds it. */
  lemma OwnCodeNoClash(basses: map<BassId, MasonBass>, id: BassId)
    requires CodesUnique(basses) && id in basses
    ensures !CodeClash(basses, id, Some(basses[id].code))
  {
  }

  /** An update that names no code is refused as soon as any other record exists. */
  lemma AbsentCodeClashes(basses: map<BassId, MasonBass>, id: BassId, other: BassId)
    requires other in basses && other != id
    ensures CodeClash(basses, id, None)
  {
  }

  /** A record after a partial update: every field given replaces the stored one. */
  function Patched(m: MasonBass, bassName: Option<string>, location: Option<string>, phoneNumber: Option<string>,
                   description: Option<string>, code: Option<string>, bassDiscount: Option<int>): (m': MasonBass)
    ensures bassName.Some? ==> m'.bassName == bassName.value
    ensures bassName.None? ==> m'.bassName == m.bassName
    ensures code.Some? ==> m'.code == code.value
    ensures code.None? ==> m'.code == m.code
    ensures bassDiscount.Some? ==> m'.bassDiscount == bassDiscount.value
    ensures bassDiscount.None? ==> m'.bassDiscount == m.bassDiscount
    ensures m'.location == Coalesce(location, m.location) && m'.phoneNumber == Coalesce(phoneNumber, m.phoneNumber)
    ensures m'.description == Coalesce(description, m.description)
  {
    MasonBass(Coalesce(bassName, m.bassName), Coalesce(location, m.location), Coalesce(phoneNumber, m.phoneNumber),
              Coalesce(description, m.description), Coalesce(code, m.code),
              if bassDiscount.Some? then bassDiscount.value else m.bassDiscount)
  }

  /** An update the clash lookup lets through keeps codes unique. */
  lemma PatchKeepsCodesUnique(basses: map<BassId, MasonBass>, id: BassId, bassName: Option<string>, location: Option<string>,
                                                 phoneNumber: Option<string>, description: Option<string>, code: Option<string>, bassDiscount: Option<int>)
    requires CodesUnique(basses) && id in basses && !CodeClash(basses, id, code)
    ensures CodesUnique(basses[id := Patched(basses[id], bassName, location, phoneNumber, description, code, bassDiscount)])
  {
    var patched := Patched(basses[id], bassName, location, phoneNumber, description, code, bassDiscount);
    var next := basses[id := patched];
    forall m1, m2 | m1 in next && m2 in next && m1 != m2 ensures next[m1].code != next[m2].code {
      if m1 == id || m2 == id {
        var other := if m1 == id then m2 else m1;
        assert other in basses && other != id;
        if code.None? {
          assert CodeClash(basses, id, code);
        } else {
          assert basses[other].code != code.value;
        }
      }
    }
  }

  /** Add a record with the given fields under the next id, unless some record already holds the code. */
  method CreateMasonBass(db: Db, bassName: string, location: string, phoneNumber: string, description: string,
                         code: string, bassDiscount: int) returns (r: Result<BassId>)
    requires db.Valid()
    modifies db
    ensures db.Valid()
    ensures r.Failure? <==> CodeInUse(old(db.basses), code)
    ensures r.Failure? ==> r.error == CodeAlreadyExists && db.Snapshot() == old(db.Snapshot())
    ensures r.Success? ==> r.value == old(db.nextId) && db.Snapshot() == old(db.Snapshot()).(
      basses := old(db.basses)[r.value := MasonBass(bassName, location, phoneNumber, description, code, bassDiscount)],
      nextId := r.value + 1)
  {
    if exists m :: m in db.basses && db.basses[m].code == code { return Failure(CodeAlreadyExists); }
    var id := db.nextId;
    var record := MasonBass(bassName, location, phoneNumber, description, code, bassDiscount);
    BassesWriteKeepsWellformed(db.Snapshot(), db.basses[id := record], id + 1);
    db.basses := db.basses[id := record];
    db.nextId := id + 1;
    r := Success(id);
  }

  /**
   * Update the fields given of record `id`. A missing record is refused,
   * then a clash with another record (see `CodeClash`); otherwise the
   * record is patched.
   */
  method UpdateMasonBass(db: Db, id: int, bassName: Option<string>, location: Option<string>, phoneNumber: Option<string>,
                         description: Option<string>, code: Option<string>, bassDiscount: Option<int>) returns (r: Outcome)
    requires db.Valid()
    modifies db
    ensures db.Valid()
    ensures r == (if !(id >= 0 && id as nat in old(db.basses)) then Err(BassNotFound)
                  else if CodeClash(old(db.basses), id, code) then Err(CodeAlreadyExists)
                  else Ok)
    ensures r.Err? ==> db.Snapshot() == old(db.Snapshot())
    ensures r.Ok? ==> db.Snapshot() == old(db.Snapshot()).(
      basses := old(db.basses)[id as nat := Patched(old(db.basses[id as nat]), bassName, location, phoneNumber, description, code, bassDiscount)])
  {
    if !(id >= 0 && id as nat in db.basses) { return Err(BassNotFound); }
    if exists m :: m in db.basses && m != id && (code.None? || db.basses[m].code == code.value) { return Err(CodeAlreadyExists); }
    var patched := Patched(db.basses[id as nat], bassName, location, phoneNumber, description, code, bassDiscount);
    PatchKeepsCodesUnique(db.basses, id as nat, bassName, location, phoneNumber, description, code, bassDiscount);
    BassesWriteKeepsWellformed(db.Snapshot(), db.basses[id as nat := patched], db.nextId);
    db.basses := db.basses[id as nat := patched];
    r := Ok;
  }

  /** Remove exactly record `id`; a missing record is refused. */
  method DeleteMasonBass(db: Db, id: int) returns (r: Outcome)
    requires db.Valid()
    modifies db
    ensures db.Valid()
    ensures r == (if id >= 0 && id as nat in old(db.basses) then Ok else Err(BassNotFound))
    ensures r.Err? ==> db.Snapshot() == old(db.Snapshot())
    ensures r.Ok? ==> db.Snapshot() == old(db.Snapshot()).(basses := old(db.basses) - {id as nat})
  {
    if !(id >= 0 && id as nat in db.basses) { return Err(BassNotFound); }
    BassesWriteKeepsWellformed(db.Snapshot(), db.basses - {id as nat}, db.nextId);
    db.basses := db.basses - {id as nat};
    r := Ok;
  }
}
