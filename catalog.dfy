/** CategoryService and BrandService: two copies of the same code over two
    tables.  A `Kind` says which table an error message speaks of; the only
    field that differs (a category's image URL, a brand's logo URL) is
    `pictureUrl`. */
module Catalog {
  import opened Wrappers
  import opened Store

  datatype Kind = CategoryKind | BrandKind

  datatype Entry = Entry(name: string, description: Option<string>, pictureUrl: Option<string>, isActive: bool)

  datatype EntryRequest = EntryRequest(name: string, description: Option<string>, pictureUrl: Option<string>)

  datatype CatalogError =
    | NotFound(kind: Kind, id: nat)          // "<Kind> not found with id: <id>"
    | NameExists(kind: Kind, name: string)   // "<Kind> with name '<name>' already exists"

  /** `existsByName` */
  predicate NameUsed(rows: map<nat, Entry>, name: string) {
    exists id :: id in rows && rows[id].name == name
  }

  /** No two entries share a name: what the existence checks maintain. */
  ghost predicate UniqueNames(rows: map<nat, Entry>) {
    forall a, b :: a in rows && b in rows && rows[a].name == rows[b].name ==> a == b
  }

  /** `findByName`: with unique names there is at most one match. */
  function FindByName(rows: map<nat, Entry>, name: string): (r: Option<nat>)
    requires UniqueNames(rows)
    ensures r.Some? <==> NameUsed(rows, name)
    ensures r.Some? ==> r.value in rows && rows[r.value].name == name
    ensures forall id :: id in rows && rows[id].name == name ==> r == Some(id)
  {
    if NameUsed(rows, name) then
      var id :| id in rows && rows[id].name == name; Some(id)
    else None
  }

  /** getCategoryById / getBrandById */
  function Get(rows: map<nat, Entry>, kind: Kind, id: nat): (r: Result<Entry, CatalogError>)
    ensures r.Ok? <==> id in rows
    ensures r.Ok? ==> r.value == rows[id]
    ensures r.Err? ==> r.error == NotFound(kind, id)
  {
    if id in rows then Ok(rows[id]) else Err(NotFound(kind, id))
  }

  /** getAllActiveCategories / getAllActiveBrands, as the set of ids. */
  function ActiveIds(rows: map<nat, Entry>): (r: set<nat>)
    ensures forall id :: id in r <==> id in rows && rows[id].isActive
  {
    set id | id in rows && rows[id].isActive
  }

  /** The table after a soft delete (`active` false) or an activation. */
  function WithActive(rows: map<nat, Entry>, id: nat, active: bool): map<nat, Entry>
    requires id in rows
  {
    rows[id := rows[id].(isActive := active)]
  }

  /** Deleting or activating keeps every record and every name, touches only
      the flag of the one entry, and doing it twice is doing it once. */
  lemma WithActiveProperties(rows: map<nat, Entry>, id: nat, active: bool)
    requires id in rows
    ensures WithActive(rows, id, active).Keys == rows.Keys
    ensures WithActive(rows, id, active)[id].isActive == active
    ensures forall k :: k in rows ==> WithActive(rows, id, active)[k].name == rows[k].name
    ensures forall k :: k in rows && k != id ==> WithActive(rows, id, active)[k] == rows[k]
    ensures WithActive(WithActive(rows, id, active), id, active) == WithActive(rows, id, active)
    ensures UniqueNames(rows) ==> UniqueNames(WithActive(rows, id, active))
    ensures id in ActiveIds(WithActive(rows, id, active)) <==> active
  {
  }

  /** createCategory / createBrand: a taken name is refused; otherwise a new
      active entry is stored under a fresh id. */
  method Create(t: Table<Entry>, kind: Kind, req: EntryRequest) returns (r: Result<nat, CatalogError>)
    requires t.Valid() && UniqueNames(t.rows)
    modifies t
    ensures t.Valid() && UniqueNames(t.rows)
    ensures r.Err? <==> NameUsed(old(t.rows), req.name)
    ensures r.Err? ==> r.error == NameExists(kind, req.name) && t.rows == old(t.rows) && t.nextId == old(t.nextId)
    ensures r.Ok? ==> r.value == old(t.nextId) &&
                      t.rows == old(t.rows)[r.value := Entry(req.name, req.description, req.pictureUrl, true)]
  {
    if NameUsed(t.rows, req.name) {
      return Err(NameExists(kind, req.name));
    }
    var id := t.Insert(Entry(req.name, req.description, req.pictureUrl, true));
    r := Ok(id);
  }

  /** updateCategory / updateBrand: the entry must exist; a new name must not
      belong to another entry (keeping the current name is always allowed);
      name, description and picture are overwritten, the flag is kept. */
  method Update(t: Table<Entry>, kind: Kind, id: nat, req: EntryRequest) returns (r: Result<Entry, CatalogError>)
    requires t.Valid() && UniqueNames(t.rows)
    modifies t
    ensures t.Valid() && UniqueNames(t.rows) && t.nextId == old(t.nextId)
    ensures id !in old(t.rows) ==> r == Err(NotFound(kind, id))
    ensures id in old(t.rows) && old(t.rows)[id].name != req.name && NameUsed(old(t.rows), req.name) ==>
      r == Err(NameExists(kind, req.name))
    ensures r.Ok? <==> id in old(t.rows) && (old(t.rows)[id].name == req.name || !NameUsed(old(t.rows), req.name))
    ensures r.Err? ==> t.rows == old(t.rows)
    ensures r.Ok? ==>
      && r.value == old(t.rows)[id].(name := req.name, description := req.description, pictureUrl := req.pictureUrl)
      && t.rows == old(t.rows)[id := r.value]
  {
    if id !in t.rows {
      return Err(NotFound(kind, id));
    }
    var entry := t.rows[id];
    if entry.name != req.name && NameUsed(t.rows, req.name) {
      return Err(NameExists(kind, req.name));
    }
    entry := entry.(name := req.name, description := req.description, pictureUrl := req.pictureUrl);
    t.rows := t.rows[id := entry];
    r := Ok(entry);
  }

  /** deleteCategory / deleteBrand: a soft delete, the record stays. */
  method Delete(t: Table<Entry>, kind: Kind, id: nat) returns (r: Result<(), CatalogError>)
    requires t.Valid()
    modifies t
    ensures t.Valid() && t.nextId == old(t.nextId)
    ensures r.Ok? <==> id in old(t.rows)
    ensures r.Err? ==> r.error == NotFound(kind, id) && t.rows == old(t.rows)
    ensures r.Ok? ==> t.rows == WithActive(old(t.rows), id, false)
  {
    if id !in t.rows {
      return Err(NotFound(kind, id));
    }
    var entry := t.rows[id];
    t.rows := t.rows[id := entry.(isActive := false)];
    r := Ok(());
  }

  /** activateCategory / activateBrand */
  method Activate(t: Table<Entry>, kind: Kind, id: nat) returns (r: Result<(), CatalogError>)
    requires t.Valid()
    modifies t
    ensures t.Valid() && t.nextId == old(t.nextId)
    ensures r.Ok? <==> id in old(t.rows)
    ensures r.Err? ==> r.error == NotFound(kind, id) && t.rows == old(t.rows)
    ensures r.Ok? ==> t.rows == WithActive(old(t.rows), id, true)
  {
    if id !in t.rows {
      return Err(NotFound(kind, id));
    }
    var entry := t.rows[id];
    t.rows := t.rows[id := entry.(isActive := true)];
    r := Ok(());
  }
}
