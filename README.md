# Resource store of a pastebin / link-shortener backend

This project models the in-memory resource store of the backend. The store
keeps text snippets and links ("resources"). It is a dictionary, shared
module-wide, that maps an id string to a `Resource` record. A stateless
`ResourceServices` object offers these operations on it:

- create a text resource and create a link resource, each failing with
  already-exists when the id is taken;
- read a resource's `(content, type)`;
- list all records;
- read a record's access count;
- replace a record's content;
- delete a record and return it.

The read, access-count, update and delete operations fail with not-found
when the id is absent; the two create operations fail with already-exists
when it is present. The listing never fails.

Files:

- `models.dfy`, module `Models`: the `Type` enumeration (`Text` with value
  "text", `Url` with value "link") and the `Resource` record. The record's
  field defaults are the defaults of its datatype constructor. The source's
  field `type` is a Dafny keyword, so it is called `kind` here.
- `dict.dfy`, module `Dict`: the store is a Python dictionary, and its
  `values()` follow the order in which keys were inserted. The module keeps
  that order as a sequence of keys beside the map. It proves how insertion,
  assignment to a present key, and removal (`pop`) change that order and
  the listed values.
- `services.dfy`, module `Services`: the errors and `Result`, and the class
  `ResourceDb` for the shared dictionary (`entries` and `order`). It also
  holds the class `ResourceServices`, whose methods change `ResourceDb` in
  place. Each mutating method states the whole new state of the map and of
  the order, for both the error path and the success path. It also states
  that it keeps the invariant `IdsMatchKeys`: every record is filed under
  its own id.
- `usage.dfy`, module `Usage`: call sequences like the ones the tests
  exercise, verified from the single-call contracts alone.

The model follows services.py where the repository's tests
(test_services.py:24-34, 73-103) expect something else:

- A read does not increment the access count, and it returns
  `(content, type)` for links as well as text. It issues no redirect.
- A record is stored under `resource.id` even when that id is `""`. No
  random id is generated: services.py:27 is only a comment.
- `vanity_url` and `expiration_time` are stored as given, never checked or
  normalised.
- services.py has no filtered listing and no delete-all.

## Model

| member | source | states |
|---|---|---|
| Models.TypeFromValue | models.py:7-9 | lookup by value finds a member exactly for "text" and "link", and the member found has that value |
| Models.TypeValues | models.py:7-9 | `Type` has exactly the two members `Text` ("text") and `Url` ("link"); lookup by value round-trips each member |
| Models.OmittedFieldsDefault | models.py:33-53 | a record built without `vanity_url`, `expiration_time` or `access_count` has `None`, `None` and `0` in them, and the given id, content and type |
| Dict.ValuesOf | services.py:48-49 | `values()` lists, at each position of the insertion order, the value stored under that key |
| Dict.ValuesAreStored | services.py:48-49 | the listed values are as many as the keys, and a value is listed if and only if some key maps to it |
| Dict.InsertKeepsOrder | services.py:32 | inserting a new key appends it to the order and its value to the listed values, and the order stays one entry per key |
| Dict.AssignKeepsOrder | services.py:59 | the in-place write of the stored record's `content` field, modelled as assigning the updated record to its present key: the order is kept and only the listed value at that key's position changes |
| Dict.RemoveKeepsOrder | services.py:65 | `pop` removes the key from the order and its value from the listed values, keeping the others in their relative order |
| Services.ResourceDb.constructor | services.py:10 | the shared dictionary starts empty |
| Services.ResourceServices.constructor | services.py:25 | a service object works on the one shared dictionary |
| Services.ResourceServices.CreateResourceText | services.py:28-33 | a taken id gives already-exists and changes nothing. Otherwise the argument, with its type set to text, is stored under its id and returned; it is appended to the listing, other keys are unchanged, and ids still match keys |
| Services.ResourceServices.CreateResourceUrl | services.py:35-40 | the same as the text case, with the type set to link |
| Services.ResourceServices.GetResource | services.py:42-46 | not-found exactly when the id is absent; otherwise exactly the stored content and type. Nothing changes, including the access count |
| Services.ResourceServices.GetAllResources | services.py:48-49 | one element per key, in insertion order, each the value stored under its key. A record is listed if and only if it is stored; nothing changes |
| Services.ResourceServices.GetResourceAccessCount | services.py:51-54 | not-found exactly when the id is absent; otherwise the stored access count. Nothing changes |
| Services.ResourceServices.UpdateResource | services.py:56-60 | an absent id gives not-found and changes nothing. Otherwise only that record's content changes (its other fields, the other records and the order stay), and the updated record is returned |
| Services.ResourceServices.DeleteResource | services.py:62-65 | an absent id gives not-found and changes nothing. Otherwise the stored record is returned (its id is the key) and the key is removed; the other records stay, in their relative order |
| Usage.CreateReadCount | services.py:28-54 | a record created without an access count reports 0, a read returns its content as text, and the count is still 0 afterwards |
| Usage.CreateTwice | services.py:29-40 | once an id is taken, creating under it again fails with already-exists (text or link), and the first record stays |
| Usage.UpdateThenRead | test_services.py:106-113 | after an update, a read returns the new content with the record's old type |
| Usage.DeleteThenQuery | test_services.py:116-124 | delete returns the stored record; afterwards both a read and an access-count query of that id fail with not-found |

## Left out

- Object identity and aliasing: the source stores and returns the caller's own `Resource` object. Its create operations overwrite that object's `type`, and its update writes `content` into the stored object, so every holder of the object sees the change. Records are values here, so only the store and the returned record show these writes. A caller that later mutates a stored object (for instance its `id`) could break `IdsMatchKeys` in the source; that is not modelled.
- Field validation and coercion done by the record library when a record is built (for instance parsing "link" into `Type.url`) are not modelled beyond `TypeFromValue`. `Type` being a `str` subclass, so that a member compares equal to its string value, is not modelled either.
- `DateTime` is a plain record of its fields with no time zone and no calendar checks; the service never inspects expiration times.
- database.py, database_startup.py and resource_entity.py (SQL and ORM persistence), connection_Test.py, env.py and test_main.py are not part of this model. They are storage, network and HTTP plumbing outside the in-memory service.
- HTTP redirects, status codes, random id generation, vanity-id allocation, "hours from now" expiration and access counting on read are not part of this model: the modelled service code does none of them.
- Concurrency: the store is a single-process dictionary, modelled sequentially.
