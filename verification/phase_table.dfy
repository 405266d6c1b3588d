/**
 The business-process table as the generator holds it: an insertion-ordered
 dictionary from keys (normally `phase_1` .. `phase_7`) to phase records,
 each a dictionary of text fields. Values that are not dictionaries are kept
 as `Scalar` entries, which every component skips.
 */
module PhaseTable {
  import opened Wrappers
  import opened Seqs

  /** A phase record: field name to text. */
  type Fields = map<string, string>

  /** `phase.get(name, '')`. */
  function Field(fields: Fields, name: string): string {
    if name in fields then fields[name] else ""
  }

  datatype Entry = Record(fields: Fields) | Scalar

  datatype Item = Item(key: string, entry: Entry)

  /** Items in insertion order; a dictionary has each key once. */
  datatype Table = Table(items: seq<Item>)

  function Keys(items: seq<Item>): seq<string> {
    seq(|items|, i requires 0 <= i < |items| => items[i].key)
  }

  ghost predicate WellFormed(t: Table) {
    Distinct(Keys(t.items))
  }

  /** `table.get(key)`: the entry stored under `key`, if any. */
  function Lookup(items: seq<Item>, key: string): (r: Option<Entry>)
    ensures r.Some? <==> key in Keys(items)
    ensures r.Some? ==> Item(key, r.value) in items
    decreases |items|
  {
    if items == [] then None
    else if items[0].key == key then
      assert Keys(items)[0] == key;
      Some(items[0].entry)
    else
      assert Keys(items) == [items[0].key] + Keys(items[1..]);
      Lookup(items[1..], key)
  }

  /** `table[key] = e` for a key that is already present: the order of the keys is kept. */
  function Update(t: Table, key: string, e: Entry): (r: Table)
    ensures Keys(r.items) == Keys(t.items)
  {
    Table(seq(|t.items|, i requires 0 <= i < |t.items| => if t.items[i].key == key then Item(key, e) else t.items[i]))
  }

  /** Reading back after an update sees the new entry under its key and the old entries elsewhere. */
  lemma {:induction false} LookupUpdate(items: seq<Item>, key: string, e: Entry, other: string)
    requires key in Keys(items)
    ensures Lookup(Update(Table(items), key, e).items, other) == if other == key then Some(e) else Lookup(items, other)
    decreases |items|
  {
    var u := Update(Table(items), key, e).items;
    if items != [] {
      assert Keys(items) == [items[0].key] + Keys(items[1..]);
      assert u[1..] == Update(Table(items[1..]), key, e).items;
      if items[0].key != key {
        LookupUpdate(items[1..], key, e, other);
      } else if other != key && key in Keys(items[1..]) {
        LookupUpdate(items[1..], key, e, other);
      } else if other != key {
        UpdateAbsent(items[1..], key, e);
      }
    }
  }

  /** Updating a key that is not there changes nothing. */
  lemma UpdateAbsent(items: seq<Item>, key: string, e: Entry)
    requires key !in Keys(items)
    ensures Update(Table(items), key, e).items == items
  {
    forall i | 0 <= i < |items|
      ensures items[i].key != key
    {
      assert Keys(items)[i] == items[i].key;
    }
  }
}
