/** Sequences of service calls, and what the contracts of the single calls
    let a caller conclude about them. */
module Usage {
  import opened Models
  import opened Services

  /** A record built without an access count and created as text reports a
      count of zero, and reading it leaves that count at zero. */
  method CreateReadCount(svc: ResourceServices, id: string, content: string)
    returns (before: Result<int>, read: Result<(string, Type)>, after: Result<int>)
    requires svc.db.Valid() && id !in svc.db.entries
    modifies svc.db
    ensures before == Ok(0)
    ensures read == Ok((content, Text))
    ensures after == Ok(0)
  {
    var created := svc.CreateResourceText(Resource(id, content, kind := Text));
    before := svc.GetResourceAccessCount(id);
    read := svc.GetResource(id);
    after := svc.GetResourceAccessCount(id);
  }

  /** Creating a second record under an id that is now taken fails, whatever
      its type, and the first record stays filed under that id. */
  method CreateTwice(svc: ResourceServices, first: Resource, second: Resource)
    returns (r1: Result<Resource>, r2: Result<Resource>, read: Result<(string, Type)>)
    requires svc.db.Valid() && first.id !in svc.db.entries && second.id == first.id
    modifies svc.db
    ensures r1 == Ok(first.(kind := Text))
    ensures r2 == Err(ResourceAlreadyExists)
    ensures read == Ok((first.content, Text))
  {
    r1 := svc.CreateResourceText(first);
    r2 := svc.CreateResourceUrl(second);
    read := svc.GetResource(first.id);
  }

  /** After an update, a read returns the new content under the old type. */
  method UpdateThenRead(svc: ResourceServices, id: string, newContent: string)
    returns (updated: Result<Resource>, read: Result<(string, Type)>)
    requires svc.db.Valid() && id in svc.db.entries
    modifies svc.db
    ensures updated.Ok? && updated.value.content == newContent
    ensures read == Ok((newContent, old(svc.db.entries)[id].kind))
  {
    updated := svc.UpdateResource(id, newContent);
    read := svc.GetResource(id);
  }

  /** After a delete, the deleted record is returned and both a read and an
      access-count query of its id fail with not-found. */
  method DeleteThenQuery(svc: ResourceServices, id: string)
    returns (deleted: Result<Resource>, read: Result<(string, Type)>, count: Result<int>)
    requires svc.db.Valid() && id in svc.db.entries
    modifies svc.db
    ensures deleted == Ok(old(svc.db.entries)[id])
    ensures read == Err(ResourceNotFound)
    ensures count == Err(ResourceNotFound)
  {
    deleted := svc.DeleteResource(id);
    read := svc.GetResource(id);
    count := svc.GetResourceAccessCount(id);
  }
}
