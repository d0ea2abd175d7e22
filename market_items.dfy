/**
 * The market item catalogue: a process-wide table from item id to market
 * item, filled from a fixed list on first use, that synthesises a "mystery
 * item" for an unknown id and overwrites the quantity and trade flags of the
 * entry it hands out, in the table itself.
 *
 * The first half states the catalogue as values (what every call does to the
 * table and what it answers); the second half is the table of objects, whose
 * methods are proved to follow the value-level statement.
 */
module MarketItems {
  import opened Wrappers

  const DefaultItem := "default"
  const EmptyItem := "empty"
  const MysteryDescription := "A mystery item. No description is available"
  /** Exclusive upper bound of the random quantity of a mystery item. */
  const MysteryQuantityBound := 50

  /** Everything a market item holds; `flag` is the fifth constructor argument. */
  datatype ItemData = ItemData(id: string, name: string, description: string, quantity: int,
                               flag: bool, buyable: bool, sellable: bool)

  /** A market item as its constructor leaves it: not buyable, not sellable. */
  function Built(id: string, name: string, description: string, quantity: int, flag: bool): ItemData {
    ItemData(id, name, description, quantity, flag, false, false)
  }

  /** The arguments a market item is constructed from. */
  datatype ItemArgs = ItemArgs(id: string, name: string, description: string, quantity: int, flag: bool) {
    /** The item the constructor builds from these arguments. */
    function Item(): ItemData {
      Built(id, name, description, quantity, flag)
    }
  }

  /** The fixed list the first use puts into the table, as (key, item) pairs in order. */
  const InitialList: seq<(string, ItemArgs)> := [
    ("AdditionalFruits:Blueberry", ItemArgs("AdditionalFruits:Blueberry", "Blueberries",
      "Blue/purple berries, perfect for a quick treat!", 2, false)),
    ("AdditionalFruits:Cranberry", ItemArgs("AdditionalFruits:Cranberry", "Cranberries",
      "Small berries, with an incredible red hue.", 2, false)),
    ("AdditionalFruits:Peach", ItemArgs("AdditionalFruits:Peach", "Peaches",
      "A medium-sized pink fruit; nice and juicy!", 2, false)),
    ("AdditionalFruits:Raspberry", ItemArgs("AdditionalFruits:Raspberry", "Raspberries",
      "A small red berry, or is it really a bunch of smaller berries?", 2, false)),
    ("AdditionalFruits:Strawberry", ItemArgs("AdditionalFruits:Strawberry", "Strawberries",
      "A delicious red berry with an outer layer of seeds.", 2, false)),
    ("AdditionalFruits:Tomato", ItemArgs("AdditionalFruits:Tomato", "Tomatoes",
      "A medium-size red vegetable/fruit.", 2, false)),
    ("AdditionalVegetables:Cucumber", ItemArgs("AdditionalVegetables:Cucumber", "Cucumbers",
      "A long green vegetable, delicious to eat in slices!", 2, false)),
    ("AdditionalVegetables:Potato", ItemArgs("AdditionalVegetables:Potato", "Potatoes",
      "A brownish root vegetable, and a major ingredient in French Fries!", 2, false)),
    ("CoreAssets:Torch", ItemArgs("CoreAssets:Torch", "Torches",
      "Great for lighting up a room!", 2, true)),
    ("CoreAssets:pickaxe", ItemArgs("CoreAssets:pickaxe", "Pickaxe",
      "There's gold in them hills, and this tool will bring you to it.", 2, true)),
    (EmptyItem, ItemArgs("", "", "", 0, false))
  ]

  /** The table that putting each pair of `list` in order into an empty table leaves. */
  function Filled(list: seq<(string, ItemArgs)>): (r: map<string, ItemData>)
    ensures r.Keys == set e | e in list :: e.0
  {
    if list == [] then map[]
    else Filled(list[..|list| - 1])[list[|list| - 1].0 := list[|list| - 1].1.Item()]
  }

  /** The entries the first use puts into the table. */
  function InitialEntries(): map<string, ItemData> {
    Filled(InitialList)
  }

  /** A later put of a key overwrites an earlier one: each entry comes from the last pair with its key. */
  lemma {:induction false} FilledFromLast(list: seq<(string, ItemArgs)>, k: string)
    requires k in Filled(list)
    ensures exists j :: 0 <= j < |list| && list[j].0 == k && list[j].1.Item() == Filled(list)[k]
                        && forall j' :: j < j' < |list| ==> list[j'].0 != k
  {
    var last := |list| - 1;
    var prefix := list[..last];
    if list[last].0 == k {
      assert Filled(list)[k] == list[last].1.Item();
    } else {
      assert Filled(list)[k] == Filled(prefix)[k];
      FilledFromLast(prefix, k);
      var j :| 0 <= j < |prefix| && prefix[j].0 == k && prefix[j].1.Item() == Filled(prefix)[k]
                && forall j' :: j < j' < |prefix| ==> prefix[j'].0 != k;
      assert list[j] == prefix[j];
      assert forall j' :: j < j' < |list| ==> list[j'].0 != k by {
        forall j' | j < j' < |list| ensures list[j'].0 != k {
          if j' < last { assert list[j'] == prefix[j']; }
        }
      }
    }
  }

  /** The fixed list has no "default" entry. */
  lemma NoDefaultEntry()
    ensures DefaultItem !in InitialEntries()
  {
    var l := InitialList;
    assert forall i :: 0 <= i < |l| ==> l[i].0 != DefaultItem;
  }

  /**
   * The fixed list holds the blank "empty" entry and, under every other key,
   * an item with that id and quantity 2.
   */
  lemma InitialEntriesShape()
    ensures EmptyItem in InitialEntries() && InitialEntries()[EmptyItem] == Built("", "", "", 0, false)
    ensures forall k :: k in InitialEntries() && k != EmptyItem ==>
              InitialEntries()[k].id == k && InitialEntries()[k].quantity == 2
  {
    var l := InitialList;
    assert forall i :: 0 <= i < |l| - 1 ==> l[i].1.id == l[i].0 && l[i].1.quantity == 2;
    assert l[|l| - 1] == (EmptyItem, ItemArgs("", "", "", 0, false));
    forall k | k in InitialEntries() && k != EmptyItem
      ensures InitialEntries()[k].id == k && InitialEntries()[k].quantity == 2
    {
      FilledFromLast(l, k);
    }
  }

  /**
   * The catalogue's state: the initialisation flag, the table, and the fixed
   * entries the first use puts into the table.
   */
  datatype Catalogue = Catalogue(initialised: bool, entries: map<string, ItemData>, fixed: map<string, ItemData>)

  /** The state before any call. */
  const Start := Catalogue(false, map[], InitialEntries())

  /** A public call on the catalogue. */
  datatype Call = Get(name: string, quantity: int) | GetEmpty | GetDefault

  /** The state once the lazy initialisation has been done (at most once). */
  function Initialised(c: Catalogue): (r: Catalogue)
    ensures r.initialised && r.fixed == c.fixed
    ensures c.initialised ==> r == c
    ensures !c.initialised ==> r.entries.Keys == c.entries.Keys + c.fixed.Keys
    ensures !c.initialised ==> forall k :: k in c.fixed ==> r.entries[k] == c.fixed[k]
  {
    if c.initialised then c else c.(initialised := true, entries := c.entries + c.fixed)
  }

  /**
   * The entry get starts from: the stored one, or a mystery item for an
   * unknown name. The mystery item's quantity 0 is a placeholder for the
   * random draw: get always overwrites it with the caller's quantity.
   */
  function Cached(entries: map<string, ItemData>, name: string): ItemData {
    if name in entries then entries[name] else Built(name, name, MysteryDescription, 0, false)
  }

  /**
   * The entry get hands out for `name`: the cached one or a mystery item,
   * with the caller's quantity, buyable and not sellable.
   */
  function Requested(c: Catalogue, name: string, quantity: int): (r: ItemData)
    ensures r.quantity == quantity && r.buyable && !r.sellable
    ensures name in c.entries ==> var e := c.entries[name];
              r.id == e.id && r.name == e.name && r.description == e.description && r.flag == e.flag
    ensures name !in c.entries ==> r.id == name && r.name == name
                                   && r.description == MysteryDescription && !r.flag
  {
    Cached(c.entries, name).(quantity := quantity, buyable := true, sellable := false)
  }

  /** The state after a call. */
  function After(c: Catalogue, call: Call): (r: Catalogue)
    ensures r.initialised && r.fixed == c.fixed
  {
    var c1 := Initialised(c);
    match call
    case Get(name, quantity) => c1.(entries := c1.entries[name := Requested(c1, name, quantity)])
    case GetEmpty => c1
    case GetDefault => c1
  }

  /** What a call returns; None stands for null. */
  function Answer(c: Catalogue, call: Call): (r: Option<ItemData>)
    ensures call.Get? ==> r.Some?
    ensures call.GetEmpty? ==> (r.None? <==> EmptyItem !in Initialised(c).entries)
    ensures call.GetDefault? ==> (r.None? <==> DefaultItem !in Initialised(c).entries)
  {
    var c1 := Initialised(c);
    match call
    case Get(name, quantity) => Some(Requested(c1, name, quantity))
    case GetEmpty => if EmptyItem in c1.entries then Some(c1.entries[EmptyItem]) else None
    case GetDefault => if DefaultItem in c1.entries then Some(c1.entries[DefaultItem]) else None
  }

  /** The state after a sequence of calls, from the start state. */
  function Run(calls: seq<Call>): (r: Catalogue)
    ensures r.fixed == InitialEntries()
  {
    if calls == [] then Start else After(Run(calls[..|calls| - 1]), calls[|calls| - 1])
  }

  /** How many calls of the sequence ran the initialisation. */
  function Initialisations(calls: seq<Call>): nat {
    if calls == [] then 0
    else Initialisations(calls[..|calls| - 1]) + (if Run(calls[..|calls| - 1]).initialised then 0 else 1)
  }

  /** True when some call of the sequence is a get of `name`. */
  predicate Requests(calls: seq<Call>, name: string) {
    exists i :: 0 <= i < |calls| && calls[i].Get? && calls[i].name == name
  }

  /**
   * get returns exactly the entry the table holds for `name` afterwards, so a
   * later lookup of that name sees the caller's quantity and flags.
   */
  lemma GetUpdatesCache(c: Catalogue, name: string, quantity: int)
    ensures var r := After(c, Get(name, quantity));
            name in r.entries && Answer(c, Get(name, quantity)) == Some(r.entries[name])
            && r.entries[name].quantity == quantity && r.entries[name].buyable && !r.entries[name].sellable
  {
  }

  /**
   * get adds at most one key, `name`, to the initialised table and leaves the
   * entries of all other keys as they were.
   */
  lemma GetTouchesOnlyName(c: Catalogue, name: string, quantity: int)
    ensures After(c, Get(name, quantity)).entries.Keys == Initialised(c).entries.Keys + {name}
    ensures forall k :: k in Initialised(c).entries && k != name ==>
              After(c, Get(name, quantity)).entries[k] == Initialised(c).entries[k]
  {
  }

  /** A second get of the same name inserts nothing. */
  lemma GetTwiceInsertsNothing(c: Catalogue, name: string, q1: int, q2: int)
    ensures var c1 := After(c, Get(name, q1));
            After(c1, Get(name, q2)).entries.Keys == c1.entries.Keys
  {
  }

  /** A get of `name` is among the calls iff it is among all but the last, or is the last. */
  lemma RequestsLast(calls: seq<Call>, name: string)
    requires calls != []
    ensures Requests(calls, name) <==>
              Requests(calls[..|calls| - 1], name) || (calls[|calls| - 1].Get? && calls[|calls| - 1].name == name)
  {
    var prefix := calls[..|calls| - 1];
    assert forall i :: 0 <= i < |prefix| ==> prefix[i] == calls[i];
  }

  /** After any call the table is initialised and holds the whole fixed list. */
  lemma {:induction false} RunInitialises(calls: seq<Call>)
    ensures Run(calls).initialised <==> calls != []
    ensures calls != [] ==> InitialEntries().Keys <= Run(calls).entries.Keys
  {
    if calls != [] {
      RunInitialises(calls[..|calls| - 1]);
    }
  }

  /** The initialisation runs exactly once, on the first call. */
  lemma {:induction false} InitialisesOnce(calls: seq<Call>)
    ensures Initialisations(calls) == if calls == [] then 0 else 1
  {
    if calls != [] {
      var prefix := calls[..|calls| - 1];
      InitialisesOnce(prefix);
      RunInitialises(prefix);
    }
  }

  /** The table holds "default" exactly when some get asked for "default". */
  lemma {:induction false} DefaultOnlyWhenRequested(calls: seq<Call>)
    ensures DefaultItem in Run(calls).entries <==> Requests(calls, DefaultItem)
  {
    if calls != [] {
      NoDefaultEntry();
      DefaultOnlyWhenRequested(calls[..|calls| - 1]);
      RequestsLast(calls, DefaultItem);
    }
  }

  /** getDefault answers null until a get of "default" has been made. */
  lemma DefaultIsNullUntilRequested(calls: seq<Call>)
    ensures Answer(Run(calls), GetDefault) == None <==> !Requests(calls, DefaultItem)
  {
    NoDefaultEntry();
    RunInitialises(calls);
    DefaultOnlyWhenRequested(calls);
  }

  /** An entry of the fixed list keeps its initial value until a get names it. */
  lemma {:induction false} UnrequestedEntryKept(calls: seq<Call>, k: string)
    requires calls != [] && k in InitialEntries() && !Requests(calls, k)
    ensures k in Run(calls).entries && Run(calls).entries[k] == InitialEntries()[k]
  {
    var prefix := calls[..|calls| - 1];
    RequestsLast(calls, k);
    if prefix != [] {
      UnrequestedEntryKept(prefix, k);
    }
  }

  /** Before any get of "empty", getEmpty answers the blank entry with quantity 0. */
  lemma EmptyIsBlankUntilRequested(calls: seq<Call>)
    requires !Requests(calls, EmptyItem)
    ensures Answer(Run(calls), GetEmpty) == Some(Built("", "", "", 0, false))
  {
    InitialEntriesShape();
    if calls != [] {
      RunInitialises(calls);
      UnrequestedEntryKept(calls, EmptyItem);
    }
  }

  /** After get("empty", q) the cached blank entry reports quantity q. */
  lemma EmptyAfterGetReportsQuantity(calls: seq<Call>, quantity: int)
    ensures var r := Answer(Run(calls + [Get(EmptyItem, quantity)]), GetEmpty);
            r.Some? && r.value.quantity == quantity && r.value.buyable && !r.value.sellable
  {
    assert (calls + [Get(EmptyItem, quantity)])[..|calls|] == calls;
  }

  /** A second write to a key of a map overrides the first. */
  lemma UpdateTwice<K, V>(m: map<K, V>, k: K, first: V, second: V)
    ensures m[k := first][k := second] == m[k := second]
  {
  }

  /** A market item. Id, names, description and flag never change after construction. */
  class MarketItem {
    const id: string
    const name: string
    const description: string
    const flag: bool
    var quantity: int
    var buyable: bool
    var sellable: bool

    constructor (id: string, name: string, description: string, quantity: int, flag: bool)
      ensures Data() == Built(id, name, description, quantity, flag)
    {
      this.id := id;
      this.name := name;
      this.description := description;
      this.quantity := quantity;
      this.flag := flag;
      this.buyable := false;
      this.sellable := false;
    }

    /** The item's current contents. */
    function Data(): ItemData
      reads this
    {
      ItemData(id, name, description, quantity, flag, buyable, sellable)
    }
  }

  /**
   * The catalogue table. The source keeps it in static fields; here it is one
   * object, and each public method is proved to do what `After` and `Answer`
   * say of the table it finds.
   */
  class MarketItemBuilder {
    /** The (key, item) pairs the initialisation puts, in order. */
    const fixedList: seq<(string, ItemArgs)>
    var details: map<string, MarketItem>
    var isInitialised: bool

    /** The table's entries as values. */
    ghost function Contents(): map<string, ItemData>
      reads this, details.Values
    {
      map k | k in details :: details[k].Data()
    }

    /** The table as a catalogue state. */
    ghost function View(): Catalogue
      reads this, details.Values
    {
      Catalogue(isInitialised, Contents(), Filled(fixedList))
    }

    /** Distinct keys hold distinct item objects. */
    ghost predicate Unaliased()
      reads this
    {
      forall k1, k2 :: k1 in details && k2 in details && k1 != k2 ==> details[k1] != details[k2]
    }

    /** Entries are not shared between keys, and the table is empty until the initialisation ran. */
    ghost predicate Valid()
      reads this
    {
      && Unaliased()
      && (!isInitialised ==> details == map[])
    }

    constructor ()
      ensures Valid() && View() == Start
    {
      fixedList := InitialList;
      details := map[];
      isInitialised := false;
    }

    /** Puts a fresh item built from each pair of `entries`, in order, into the empty table. */
    method Fill(entries: seq<(string, ItemArgs)>)
      requires details == map[]
      modifies this`details
      ensures Unaliased() && Contents() == Filled(entries)
      ensures forall k :: k in details ==> fresh(details[k])
    {
      var i := 0;
      while i < |entries|
        invariant 0 <= i <= |entries|
        invariant details.Keys == Filled(entries[..i]).Keys
        invariant forall k :: k in details ==> fresh(details[k]) && details[k].Data() == Filled(entries[..i])[k]
        invariant Unaliased()
      {
        var (key, d) := entries[i];
        var item := new MarketItem(d.id, d.name, d.description, d.quantity, d.flag);
        assert entries[..i + 1][..i] == entries[..i];
        assert Filled(entries[..i + 1]) == Filled(entries[..i])[key := d.Item()];
        details := details[key := item];
        i := i + 1;
      }
      assert entries[..i] == entries;
    }

    /** Fills the empty table with the fixed list and sets the flag. */
    method Initialise()
      requires Valid() && !isInitialised
      modifies this`details, this`isInitialised
      ensures Valid() && View() == Initialised(old(View()))
      ensures forall k :: k in details ==> fresh(details[k])
    {
      Fill(fixedList);
      isInitialised := true;
      assert old(View()).entries + Filled(fixedList) == Contents();
    }

    /** Runs the initialisation unless it already ran. */
    method EnsureInitialised()
      requires Valid()
      modifies this`details, this`isInitialised
      ensures Valid() && View() == Initialised(old(View()))
      ensures old(isInitialised) ==> details == old(details)
      ensures forall k :: k in details ==> (k in old(details) && details[k] == old(details)[k]) || fresh(details[k])
    {
      if !isInitialised {
        Initialise();
      }
    }

    /** Creates a mystery item for an unknown name and stores it; never null. */
    method TryCreate(name: string) returns (item: MarketItem)
      requires Unaliased()
      modifies this`details
      ensures fresh(item) && Unaliased() && details == old(details)[name := item]
      ensures Contents() == old(Contents())[name := item.Data()]
      ensures item.Data() == Built(name, name, MysteryDescription, item.quantity, false)
      ensures 0 <= item.quantity < MysteryQuantityBound
    {
      // the random draw of the source: some value in [0, 50)
      var roll :| 0 <= roll < MysteryQuantityBound;
      item := new MarketItem(name, name, MysteryDescription, roll, false);
      details := details[name := item];
      assert Contents() == old(Contents())[name := item.Data()] by {
        forall k | k in details && k != name ensures details[k] == old(details)[k] {}
      }
    }

    /** Answers the "default" entry, or null when the table has none. */
    method GetDefault() returns (item: MarketItem?)
      requires Valid()
      modifies this`details, this`isInitialised
      ensures Valid() && View() == After(old(View()), Call.GetDefault)
      ensures item == null <==> DefaultItem !in details
      ensures item != null ==> item == details[DefaultItem]
      ensures Answer(old(View()), Call.GetDefault) == if item == null then None else Some(item.Data())
      ensures forall k :: k in old(details) ==> k in details && details[k] == old(details)[k]
      ensures forall k :: k in details ==> (k in old(details) && details[k] == old(details)[k]) || fresh(details[k])
    {
      EnsureInitialised();
      item := if DefaultItem in details then details[DefaultItem] else null;
    }

    /** Answers the "empty" entry, or null when the table has none. */
    method GetEmpty() returns (item: MarketItem?)
      requires Valid()
      modifies this`details, this`isInitialised
      ensures Valid() && View() == After(old(View()), Call.GetEmpty)
      ensures item == null <==> EmptyItem !in details
      ensures item != null ==> item == details[EmptyItem]
      ensures Answer(old(View()), Call.GetEmpty) == if item == null then None else Some(item.Data())
      ensures forall k :: k in old(details) ==> k in details && details[k] == old(details)[k]
      ensures forall k :: k in details ==> (k in old(details) && details[k] == old(details)[k]) || fresh(details[k])
    {
      EnsureInitialised();
      item := if EmptyItem in details then details[EmptyItem] else null;
    }

    /** Sets the quantity and trade flags of one entry of the table, in place. */
    method Overwrite(key: string, quantity: int)
      requires Unaliased() && key in details
      modifies details[key]
      ensures Contents() == old(Contents())[key := old(details[key].Data()).(quantity := quantity, buyable := true, sellable := false)]
    {
      var item := details[key];
      item.quantity := quantity;
      item.buyable := true;
      item.sellable := false;
      assert Contents() == old(Contents())[key := item.Data()] by {
        forall k | k in details && k != key ensures details[k] != item {}
      }
    }

    /**
     * Looks `name` up and, on a miss, creates and stores a mystery item; the
     * fallback to the "default" entry is never taken.
     */
    method Lookup(name: string) returns (item: MarketItem)
      requires Unaliased()
      modifies this`details
      ensures Unaliased() && details == old(details)[name := item]
      ensures if name in old(details) then item == old(details)[name] else fresh(item)
      ensures Contents() == old(Contents())[name := item.Data()]
      ensures item.Data().(quantity := 0) == Cached(old(Contents()), name).(quantity := 0)
    {
      var found: MarketItem? := if name in details then details[name] else null;
      if found == null {
        found := TryCreate(name);
      }
      if found == null {
        // the fallback to the "default" entry: tryCreate never answers null
        assert false;
      }
      item := found;
      assert Contents() == old(Contents())[name := item.Data()] by {
        forall k | k in details && k != name ensures details[k] == old(details)[k] {}
      }
    }

    /**
     * Looks `name` up, creating a mystery item on a miss, then overwrites the
     * quantity and trade flags of that very entry and returns it.
     */
    method Stamp(name: string, quantity: int) returns (item: MarketItem)
      requires Unaliased()
      modifies this`details, details.Values
      ensures Unaliased() && name in details && item == details[name]
      ensures details.Keys == old(details).Keys + {name}
      ensures forall k :: k in old(details) ==> k in details && details[k] == old(details[k])
      ensures name !in old(details) ==> fresh(details[name])
      ensures Contents() == old(Contents())[name := Cached(old(Contents()), name).(quantity := quantity, buyable := true, sellable := false)]
    {
      item := Lookup(name);
      assert forall k :: k in old(details) ==> k in details && details[k] == old(details[k]);
      ghost var looked := Contents();
      ghost var stamped := item.Data().(quantity := quantity, buyable := true, sellable := false);
      assert stamped == Cached(old(Contents()), name).(quantity := quantity, buyable := true, sellable := false);
      UpdateTwice(old(Contents()), name, item.Data(), stamped);
      Overwrite(name, quantity);
      assert Contents() == looked[name := stamped];
    }

    /** get: runs the initialisation if needed, then stamps the entry for `name`. */
    method Get(name: string, quantity: int) returns (item: MarketItem)
      requires Valid()
      modifies this, details.Values
      ensures Valid() && View() == After(old(View()), Call.Get(name, quantity))
      ensures name in details && item == details[name]
      ensures Answer(old(View()), Call.Get(name, quantity)) == Some(item.Data())
      ensures forall k :: k in old(details) ==> k in details && details[k] == old(details[k])
      ensures forall k :: k in details ==> (k in old(details) && details[k] == old(details)[k]) || fresh(details[k])
    {
      EnsureInitialised();
      ghost var c1 := View();
      item := Stamp(name, quantity);
      assert Contents() == c1.entries[name := Requested(c1, name, quantity)];
      assert Contents()[name] == item.Data();
    }
  }
}
