/**
 * The documents the database holds, how a record is written into one and
 * how the read path turns documents back into records, with its defaults.
 */
module Records {
  import opened Wrappers
  import opened Protocol
  import opened Text

  /** The BSON values that matter here; every other kind is "not a string, not an array". */
  datatype Bson =
    | BString(str: string)
    | BArray(elements: seq<Bson>)
    | BInt32(number: int)
    | BBool(flag: bool)
    | BNull

  type Document = map<string, Bson>

  /**
   * One stored document as the cursor meets it: one it can read, or one it
   * returns as an error. The server still holds the document either way.
   */
  datatype Entry = Stored(doc: Document) | Unreadable(doc: Document)

  const NameKey: string := "name"
  const AdminsKey: string := "admins"
  const LastDeploymentKey: string := "last_deployment"

  /** The document written for a record: the admins become an array of strings. */
  function Encode(item: DBItem): Document {
    map[NameKey := BString(item.name),
        AdminsKey := BArray(seq(|item.admins|, i requires 0 <= i < |item.admins| => BString(item.admins[i]))),
        LastDeploymentKey := BString(item.lastDeployment)]
  }

  function StringField(doc: Document, key: string): string {
    if key in doc && doc[key].BString? then doc[key].str else ""
  }

  function ArrayField(doc: Document, key: string, render: Bson -> string): seq<string> {
    if key in doc && doc[key].BArray? then
      var elements := doc[key].elements;
      seq(|elements|, i requires 0 <= i < |elements| => render(elements[i]))
    else []
  }

  /**
   * Reading one document back: a missing or non-string `name` or
   * `last_deployment` reads as "", a missing or non-array `admins` as [];
   * each admin is the element's rendering (`render`), whatever its kind.
   */
  function DecodeDocument(doc: Document, render: Bson -> string): (item: DBItem)
    ensures NameKey in doc && doc[NameKey].BString? ==> item.name == doc[NameKey].str
    ensures !(NameKey in doc && doc[NameKey].BString?) ==> item.name == ""
    ensures LastDeploymentKey in doc && doc[LastDeploymentKey].BString? ==>
              item.lastDeployment == doc[LastDeploymentKey].str
    ensures !(LastDeploymentKey in doc && doc[LastDeploymentKey].BString?) ==> item.lastDeployment == ""
    ensures !(AdminsKey in doc && doc[AdminsKey].BArray?) ==> item.admins == []
    ensures AdminsKey in doc && doc[AdminsKey].BArray? ==>
              |item.admins| == |doc[AdminsKey].elements| &&
              forall i :: 0 <= i < |item.admins| ==> item.admins[i] == render(doc[AdminsKey].elements[i])
  {
    DBItem(StringField(doc, NameKey), ArrayField(doc, AdminsKey, render), StringField(doc, LastDeploymentKey))
  }

  /** A written record reads back with the same name and last deployment; each admin as its rendered string. */
  lemma DecodeEncode(item: DBItem, render: Bson -> string)
    ensures DecodeDocument(Encode(item), render).name == item.name
    ensures DecodeDocument(Encode(item), render).lastDeployment == item.lastDeployment
    ensures |DecodeDocument(Encode(item), render).admins| == |item.admins|
    ensures forall i :: 0 <= i < |item.admins| ==>
              DecodeDocument(Encode(item), render).admins[i] == render(BString(item.admins[i]))
  {
  }

  function DecodeEntry(entry: Entry, render: Bson -> string): seq<DBItem> {
    if entry.Stored? then [DecodeDocument(entry.doc, render)] else []
  }

  /** The read path over a whole cursor: unreadable entries are skipped, the rest decoded in order. */
  function DecodeAll(cursor: seq<Entry>, render: Bson -> string): seq<DBItem> {
    if cursor == [] then [] else DecodeEntry(cursor[0], render) + DecodeAll(cursor[1..], render)
  }

  lemma {:induction false} DecodeAllAppend(a: seq<Entry>, b: seq<Entry>, render: Bson -> string)
    ensures DecodeAll(a + b, render) == DecodeAll(a, render) + DecodeAll(b, render)
  {
    if a == [] {
      assert a + b == b;
    } else {
      assert (a + b)[1..] == a[1..] + b;
      DecodeAllAppend(a[1..], b, render);
    }
  }

  /** The table never has more records than the cursor has entries. */
  lemma {:induction false} DecodeAllLength(cursor: seq<Entry>, render: Bson -> string)
    ensures |DecodeAll(cursor, render)| <= |cursor|
  {
    if cursor != [] {
      DecodeAllLength(cursor[1..], render);
    }
  }

  /** When every entry is readable, the table has one record per entry, decoded in cursor order. */
  lemma {:induction false} DecodeAllReadable(cursor: seq<Entry>, render: Bson -> string)
    requires forall i :: 0 <= i < |cursor| ==> cursor[i].Stored?
    ensures |DecodeAll(cursor, render)| == |cursor|
    ensures forall i :: 0 <= i < |cursor| ==> DecodeAll(cursor, render)[i] == DecodeDocument(cursor[i].doc, render)
  {
    if cursor != [] {
      DecodeAllReadable(cursor[1..], render);
      forall i | 0 <= i < |cursor|
        ensures DecodeAll(cursor, render)[i] == DecodeDocument(cursor[i].doc, render)
      {
        if i > 0 {
          assert cursor[1..][i - 1] == cursor[i];
        }
      }
    }
  }

  /** A record is in the table exactly when some readable entry decodes to it. */
  lemma {:induction false} DecodeAllMember(cursor: seq<Entry>, render: Bson -> string, item: DBItem)
    ensures item in DecodeAll(cursor, render) <==>
            exists i :: 0 <= i < |cursor| && cursor[i].Stored? && DecodeDocument(cursor[i].doc, render) == item
  {
    if cursor != [] {
      DecodeAllMember(cursor[1..], render, item);
      if item in DecodeAll(cursor, render) {
        if item !in DecodeEntry(cursor[0], render) {
          var i :| 0 <= i < |cursor[1..]| && cursor[1..][i].Stored? && DecodeDocument(cursor[1..][i].doc, render) == item;
          assert cursor[i + 1] == cursor[1..][i];
        }
      } else {
        forall i | 0 <= i < |cursor| && cursor[i].Stored?
          ensures DecodeDocument(cursor[i].doc, render) != item
        {
          if i > 0 {
            assert cursor[1..][i - 1] == cursor[i];
          }
        }
      }
    }
  }

  /** The filter {"name": name}, applied by the server: a document whose name field is that string, readable by the client or not. */
  predicate Matches(entry: Entry, name: string) {
    NameKey in entry.doc && entry.doc[NameKey] == BString(name)
  }

  /** find_one_and_delete: the first matching entry is removed, if there is one. */
  function RemoveFirst(entries: seq<Entry>, name: string): seq<Entry> {
    if entries == [] then []
    else if Matches(entries[0], name) then entries[1..]
    else [entries[0]] + RemoveFirst(entries[1..], name)
  }

  /** With a match at i and none before it, exactly entry i goes and the others stay, in order. */
  lemma {:induction false} RemoveFirstAt(entries: seq<Entry>, name: string, i: nat)
    requires i < |entries| && Matches(entries[i], name)
    requires forall j :: 0 <= j < i ==> !Matches(entries[j], name)
    ensures RemoveFirst(entries, name) == entries[..i] + entries[i + 1..]
  {
    if i > 0 {
      assert !Matches(entries[0], name);
      RemoveFirstAt(entries[1..], name, i - 1);
      assert entries[1..][..i - 1] == entries[1..i];
      assert entries[1..][i..] == entries[i + 1..];
      assert entries[..i] == [entries[0]] + entries[1..i];
    }
  }

  /** Without a match nothing is removed. */
  lemma {:induction false} RemoveFirstNoMatch(entries: seq<Entry>, name: string)
    requires forall j :: 0 <= j < |entries| ==> !Matches(entries[j], name)
    ensures RemoveFirst(entries, name) == entries
  {
    if entries != [] {
      RemoveFirstNoMatch(entries[1..], name);
    }
  }

  /** At most one entry is removed, and only a matching one. */
  lemma {:induction false} RemoveFirstRemovesOne(entries: seq<Entry>, name: string)
    ensures |RemoveFirst(entries, name)| >= |entries| - 1
    ensures multiset(RemoveFirst(entries, name)) <= multiset(entries)
    ensures forall e :: e in multiset(entries) - multiset(RemoveFirst(entries, name)) ==> Matches(e, name)
  {
    if entries != [] {
      RemoveFirstRemovesOne(entries[1..], name);
      assert entries == [entries[0]] + entries[1..];
      if !Matches(entries[0], name) {
        assert multiset(entries) - multiset(RemoveFirst(entries, name))
            == multiset(entries[1..]) - multiset(RemoveFirst(entries[1..], name));
      }
    }
  }

  /** With two matching entries, a matching entry is still there afterwards. */
  lemma RemoveFirstKeepsDuplicate(entries: seq<Entry>, name: string, i: nat, j: nat)
    requires i < j < |entries| && Matches(entries[i], name) && Matches(entries[j], name)
    ensures exists k :: 0 <= k < |RemoveFirst(entries, name)| && Matches(RemoveFirst(entries, name)[k], name)
  {
    var first :| 0 <= first <= i && Matches(entries[first], name) &&
                 forall m :: 0 <= m < first ==> !Matches(entries[m], name) by {
      FirstMatch(entries, name, i);
    }
    RemoveFirstAt(entries, name, first);
    assert RemoveFirst(entries, name)[j - 1] == entries[j];
  }

  /** Some match at or before i is the first one. */
  lemma {:induction false} FirstMatch(entries: seq<Entry>, name: string, i: nat)
    requires i < |entries| && Matches(entries[i], name)
    ensures exists first :: 0 <= first <= i && Matches(entries[first], name) &&
                            forall m :: 0 <= m < first ==> !Matches(entries[m], name)
  {
    if exists m :: 0 <= m < i && Matches(entries[m], name) {
      var m :| 0 <= m < i && Matches(entries[m], name);
      FirstMatch(entries, name, m);
    }
  }

  /** The `any` test of the add flow: some record has this name. */
  predicate HasName(table: seq<DBItem>, name: string) {
    exists i :: 0 <= i < |table| && table[i].name == name
  }

  predicate UniqueNames(table: seq<DBItem>) {
    forall i, j :: 0 <= i < j < |table| ==> table[i].name != table[j].name
  }

  /** The guard of the add flow: the name is not in the table and the reply trims to "y". */
  predicate ConfirmAdd(table: seq<DBItem>, name: string, reply: string) {
    !HasName(table, name) && Trim(reply) == "y"
  }

  /** Appending the written record under the guard keeps the names of the table unique, and makes the name known. */
  lemma ConfirmedAddKeepsNamesUnique(entries: seq<Entry>, item: DBItem, reply: string, render: Bson -> string)
    requires UniqueNames(DecodeAll(entries, render))
    requires ConfirmAdd(DecodeAll(entries, render), item.name, reply)
    ensures DecodeAll(entries + [Stored(Encode(item))], render) ==
            DecodeAll(entries, render) + [DecodeDocument(Encode(item), render)]
    ensures UniqueNames(DecodeAll(entries + [Stored(Encode(item))], render))
    ensures HasName(DecodeAll(entries + [Stored(Encode(item))], render), item.name)
  {
    DecodeAllAppend(entries, [Stored(Encode(item))], render);
    assert DecodeAll([Stored(Encode(item))], render) == [DecodeDocument(Encode(item), render)];
    var table := DecodeAll(entries, render);
    var after := DecodeAll(entries + [Stored(Encode(item))], render);
    DecodeEncode(item, render);
    assert after[|table|].name == item.name;
  }
}
