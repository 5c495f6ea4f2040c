/** The candidate store: one record per candidate, replaced only by its next version. */
module PromotionStore {
  import opened Wrappers
  import opened Text
  import opened PromotionModel

  predicate IdChar(c: char) {
    ('a' <= c <= 'z') || ('A' <= c <= 'Z') || ('0' <= c <= '9') || c == '-' || c == '_'
  }

  /** The key a candidate id addresses, when the id is usable at all. */
  function Key(u: Unicode, id: string): Result<string, Error> {
    var key := u.Trim(id);
    if key == "" || exists i :: 0 <= i < |key| && !IdChar(key[i]) then Failure(Invalid) else Success(key)
  }

  function Lookup(u: Unicode, records: map<string, Record>, id: string): Result<Record, Error> {
    var key := Key(u, id);
    if key.Failure? then Failure(key.error)
    else if key.value !in records then Failure(NotFound)
    else Success(records[key.value])
  }

  /** The new contents after a creation, or the reason it is refused. */
  function Inserted(u: Unicode, records: map<string, Record>, c: Record): Result<map<string, Record>, Error> {
    var key := Key(u, c.id);
    if key.Failure? then Failure(key.error)
    else if key.value in records then Failure(AlreadyExists)
    else Success(records[key.value := c])
  }

  /** The new contents after a compare-and-write, or the reason it is refused. */
  function Replaced(u: Unicode, records: map<string, Record>, c: Record, expected: int): Result<map<string, Record>,
      Error> {
    var current := Lookup(u, records, c.id);
    if current.Failure? then Failure(current.error)
    else if current.value.version != expected then Failure(VersionConflict)
    else if c.version != expected + 1 then Failure(Invalid)
    else Success(records[Key(u, c.id).value := c])
  }

  class CandidateStore {
    const u: Unicode
    var records: map<string, Record>

    constructor (u: Unicode)
      ensures this.u == u && records == map[]
    {
      this.u := u;
      records := map[];
    }

    method Create(c: Record) returns (error: Option<Error>)
      modifies this`records
      ensures error.None? <==> Inserted(u, old(records), c).Success?
      ensures error.None? ==> records == Inserted(u, old(records), c).value
      ensures error.Some? ==> records == old(records) && Inserted(u, old(records), c) == Failure(error.value)
    {
      var key := Key(u, c.id);
      if key.Failure? {
        return Some(key.error);
      }
      if key.value in records {
        return Some(AlreadyExists);
      }
      records := records[key.value := c];
      error := None;
    }

    method Get(id: string) returns (r: Result<Record, Error>)
      ensures r == Lookup(u, records, id)
    {
      var key := Key(u, id);
      if key.Failure? {
        return Failure(key.error);
      }
      if key.value !in records {
        return Failure(NotFound);
      }
      r := Success(records[key.value]);
    }

    method Update(c: Record, expected: int) returns (error: Option<Error>)
      modifies this`records
      ensures error.None? <==> Replaced(u, old(records), c, expected).Success?
      ensures error.None? ==> records == Replaced(u, old(records), c, expected).value
      ensures error.Some? ==> records == old(records) && Replaced(u, old(records), c, expected) == Failure(error.value)
    {
      var current := Get(c.id);
      if current.Failure? {
        return Some(current.error);
      }
      if current.value.version != expected {
        return Some(VersionConflict);
      }
      if c.version != expected + 1 {
        return Some(Invalid);
      }
      records := records[Key(u, c.id).value := c];
      error := None;
    }
  }
}
