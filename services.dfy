/** The in-memory resource service: a dictionary from id to record, shared
    by every service object, and the operations that create, read, list,
    update and delete its records. The two exception classes become the
    error alternatives of `Result`. */
module Services {
  import opened Models
  import opened Dict

  /** `ResourceAlreadyExistsError` and `ResourceNotFoundError`. */
  datatype Error = ResourceAlreadyExists | ResourceNotFound

  /** What an operation returns, or the error it raises. */
  datatype Result<T> = Ok(value: T) | Err(error: Error)

  /** Every stored record is filed under its own id. */
  ghost predicate IdsMatchKeys(entries: map<string, Resource>) {
    forall k :: k in entries ==> entries[k].id == k
  }

  /** The module-level dictionary `resource_db`, with the insertion order of
      its keys. */
  class ResourceDb {
    var entries: map<string, Resource>
    var order: seq<string>

    ghost predicate Valid()
      reads this
    {
      Coherent(order, entries)
    }

    /** The stored records in the order `values()` lists them. */
    function Values(): seq<Resource>
      reads this
      requires Valid()
    {
      ValuesOf(order, entries)
    }

    /** The dictionary starts empty. */
    constructor ()
      ensures Valid()
      ensures entries == map[] && order == []
    {
      entries := map[];
      order := [];
    }
  }

  /** The service object. It keeps no state of its own: every instance works
      on the one shared dictionary `db`. */
  class ResourceServices {
    const db: ResourceDb

    constructor (db: ResourceDb)
      ensures this.db == db
    {
      this.db := db;
    }

    /** Files `resource` under its id as a text snippet, unless that id is
        already taken. */
    method CreateResourceText(resource: Resource) returns (r: Result<Resource>)
      requires db.Valid()
      modifies db
      ensures db.Valid()
      ensures resource.id in old(db.entries) ==>
        && r == Err(ResourceAlreadyExists)
        && db.entries == old(db.entries) && db.order == old(db.order)
      ensures resource.id !in old(db.entries) ==>
        && r == Ok(resource.(kind := Text))
        && db.entries == old(db.entries)[resource.id := r.value]
        && db.order == old(db.order) + [resource.id]
        && db.Values() == old(db.Values()) + [r.value]
      ensures IdsMatchKeys(old(db.entries)) ==> IdsMatchKeys(db.entries)
    {
      if resource.id in db.entries {
        return Err(ResourceAlreadyExists);
      }
      var stored := resource.(kind := Text);
      InsertKeepsOrder(db.order, db.entries, stored.id, stored);
      db.entries := db.entries[stored.id := stored];
      db.order := db.order + [stored.id];
      r := Ok(stored);
    }

    /** Files `resource` under its id as a link, unless that id is already
        taken. */
    method CreateResourceUrl(resource: Resource) returns (r: Result<Resource>)
      requires db.Valid()
      modifies db
      ensures db.Valid()
      ensures resource.id in old(db.entries) ==>
        && r == Err(ResourceAlreadyExists)
        && db.entries == old(db.entries) && db.order == old(db.order)
      ensures resource.id !in old(db.entries) ==>
        && r == Ok(resource.(kind := Url))
        && db.entries == old(db.entries)[resource.id := r.value]
        && db.order == old(db.order) + [resource.id]
        && db.Values() == old(db.Values()) + [r.value]
      ensures IdsMatchKeys(old(db.entries)) ==> IdsMatchKeys(db.entries)
    {
      if resource.id in db.entries {
        return Err(ResourceAlreadyExists);
      }
      var stored := resource.(kind := Url);
      InsertKeepsOrder(db.order, db.entries, stored.id, stored);
      db.entries := db.entries[stored.id := stored];
      db.order := db.order + [stored.id];
      r := Ok(stored);
    }

    /** The content and type of the record filed under `id`. Reading does
        not touch the record's access count, nor anything else. */
    method GetResource(id: string) returns (r: Result<(string, Type)>)
      ensures id !in db.entries <==> r == Err(ResourceNotFound)
      ensures id in db.entries ==> r == Ok((db.entries[id].content, db.entries[id].kind))
    {
      if id !in db.entries {
        return Err(ResourceNotFound);
      }
      var resource := db.entries[id];
      r := Ok((resource.content, resource.kind));
    }

    /** Every stored record, once each, in insertion order. */
    method GetAllResources() returns (all: seq<Resource>)
      requires db.Valid()
      ensures |all| == |db.order| == |db.entries|
      ensures forall j :: 0 <= j < |db.order| ==> all[j] == db.entries[db.order[j]]
      ensures forall v :: v in all <==> exists k :: k in db.entries && db.entries[k] == v
    {
      all := db.Values();
      ValuesAreStored(db.order, db.entries);
    }

    /** How often the record filed under `resourceId` has been accessed. */
    method GetResourceAccessCount(resourceId: string) returns (r: Result<int>)
      ensures resourceId !in db.entries <==> r == Err(ResourceNotFound)
      ensures resourceId in db.entries ==> r == Ok(db.entries[resourceId].accessCount)
    {
      if resourceId !in db.entries {
        return Err(ResourceNotFound);
      }
      r := Ok(db.entries[resourceId].accessCount);
    }

    /** Replaces the content of the record filed under `resourceId`; every
        other field of it, and every other record, stays as it was. */
    method UpdateResource(resourceId: string, newContent: string) returns (r: Result<Resource>)
      requires db.Valid()
      modifies db
      ensures db.Valid()
      ensures resourceId !in old(db.entries) ==>
        && r == Err(ResourceNotFound)
        && db.entries == old(db.entries) && db.order == old(db.order)
      ensures resourceId in old(db.entries) ==>
        && r == Ok(old(db.entries)[resourceId].(content := newContent))
        && db.entries == old(db.entries)[resourceId := r.value]
        && db.order == old(db.order)
        && db.Values() == old(db.Values())[IndexOf(db.order, resourceId) := r.value]
      ensures IdsMatchKeys(old(db.entries)) ==> IdsMatchKeys(db.entries)
    {
      if resourceId !in db.entries {
        return Err(ResourceNotFound);
      }
      var updated := db.entries[resourceId].(content := newContent);
      AssignKeepsOrder(db.order, db.entries, resourceId, updated);
      db.entries := db.entries[resourceId := updated];
      r := Ok(db.entries[resourceId]);
    }

    /** Removes the record filed under `resourceId` and returns it; the
        other records keep their place. */
    method DeleteResource(resourceId: string) returns (r: Result<Resource>)
      requires db.Valid()
      modifies db
      ensures db.Valid()
      ensures resourceId !in old(db.entries) ==>
        && r == Err(ResourceNotFound)
        && db.entries == old(db.entries) && db.order == old(db.order)
      ensures resourceId in old(db.entries) ==>
        && r == Ok(old(db.entries)[resourceId])
        && db.entries == old(db.entries) - {resourceId}
        && var i := IndexOf(old(db.order), resourceId);
           && db.order == Cut(old(db.order), i)
           && db.Values() == Cut(old(db.Values()), i)
      ensures IdsMatchKeys(old(db.entries)) ==> IdsMatchKeys(db.entries)
      ensures IdsMatchKeys(old(db.entries)) && r.Ok? ==> r.value.id == resourceId
    {
      if resourceId !in db.entries {
        return Err(ResourceNotFound);
      }
      var removed := db.entries[resourceId];
      var i := IndexOf(db.order, resourceId);
      RemoveKeepsOrder(db.order, db.entries, resourceId);
      db.entries := db.entries - {resourceId};
      db.order := Cut(db.order, i);
      r := Ok(removed);
    }
  }
}
