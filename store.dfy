/**
 * The namespace database: named collections of documents, with the three
 * driver operations the tool uses on them.
 */
module Store {
  import opened Protocol
  import opened Records

  class Database {
    /** Collection name to its documents in natural order; a name with no documents may be absent. */
    var collections: map<string, seq<Entry>>

    function Entries(collection: string): seq<Entry>
      reads this
    {
      if collection in collections then collections[collection] else []
    }

    /** The records the read path produces for a collection. */
    function Table(collection: string, render: Bson -> string): seq<DBItem>
      reads this
    {
      DecodeAll(Entries(collection), render)
    }

    /** find(None, None): a cursor over every entry of the collection. */
    method Find(collection: string) returns (cursor: seq<Entry>)
      ensures cursor == Entries(collection)
    {
      cursor := Entries(collection);
    }

    /** insert_one: the document goes at the end; no check for another with the same name. */
    method InsertOne(collection: string, doc: Document)
      modifies this
      ensures collections == old(collections)[collection := old(Entries(collection)) + [Stored(doc)]]
    {
      collections := collections[collection := Entries(collection) + [Stored(doc)]];
    }

    /** find_one_and_delete({"name": name}): the first matching document goes, if any. */
    method FindOneAndDelete(collection: string, name: string)
      modifies this
      ensures collection in old(collections) ==>
                collections == old(collections)[collection := RemoveFirst(old(collections)[collection], name)]
      ensures collection !in old(collections) ==> collections == old(collections)
    {
      if collection in collections {
        collections := collections[collection := RemoveFirst(collections[collection], name)];
      }
    }
  }
}
