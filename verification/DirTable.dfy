/** The directories table: the entries of a directory are the attributes of its register, the name
    spelt in bytes and the id as the host's byte order leaves it. The calls directory.cxx makes on the register do to the table
    what FsDbs does to its map of entries. */
module DirTables {
  import opened Wrappers
  import opened Namespace
  import opened Registers
  import opened Store
  import opened Tables
  import opened FsDbs
  import opened Seqs

  /** A name that can be stored: of one-byte characters, and not one of the two set apart. */
  predicate Spellable(x: Name) {
    x.Word? ==> x.text != "." && x.text != ".." && forall c | c in x.text :: c as int < 256
  }

  function ByteOf(c: char): Byte
    requires c as int < 256
  {
    c as int
  }

  function Spell(x: Name): Bytes
    requires Spellable(x)
  {
    assert x.Word? ==> forall i | 0 <= i < |x.text| :: x.text[i] in x.text;
    match x
    case Dot => [46]
    case DotDot => [46, 46]
    case Word(s) => seq(|s|, i requires 0 <= i < |s| => ByteOf(s[i]))
  }

  function Read(b: Bytes): Name {
    if b == [46] then Dot
    else if b == [46, 46] then DotDot
    else Word(seq(|b|, i requires 0 <= i < |b| => b[i] as char))
  }

  lemma DotTexts(s: string)
    ensures |s| == 1 && s[0] == '.' ==> s == "."
    ensures |s| == 2 && s[0] == s[1] == '.' ==> s == ".."
  {
  }

  lemma DotBytes(b: Bytes)
    ensures |b| == 1 && b[0] == 46 ==> b == [46]
    ensures |b| == 2 && b[0] == b[1] == 46 ==> b == [46, 46]
  {
  }

  lemma ReadSpell(x: Name)
    requires Spellable(x)
    ensures Read(Spell(x)) == x
  {
    if x.Word? {
      var b := Spell(x);
      assert |b| == |x.text| && forall i | 0 <= i < |b| :: b[i] as char == x.text[i];
      DotTexts(x.text);
    }
  }

  lemma SpellRead(b: Bytes)
    ensures Spellable(Read(b)) && Spell(Read(b)) == b
  {
    if Read(b).Word? {
      var s := Read(b).text;
      assert |s| == |b| && forall i | 0 <= i < |b| :: s[i] as int == b[i];
      DotBytes(b);
    }
  }

  lemma NothingSpelt(x: Name)
    requires Spellable(x)
    ensures Spell(x) == [] <==> x == EMPTY_NAME
  {
  }

  /** A key an entry can have. The attribute without a name is no entry: it only keeps the id in use. */
  predicate Storable(k: Key) {
    k.dir < Power(WIDTH) && Spellable(k.name) && k.name != EMPTY_NAME
  }

  function Reversed(b: Bytes): (r: Bytes)
    ensures |r| == |b|
  {
    if b == [] then [] else Reversed(b[1..]) + [b[0]]
  }

  lemma {:induction false} ReversedLast(b: Bytes, x: Byte)
    ensures Reversed(b + [x]) == [x] + Reversed(b)
    decreases |b|
  {
    if b != [] {
      ReversedLast(b[1..], x);
      assert (b + [x])[1..] == b[1..] + [x];
    }
  }

  lemma {:induction false} ReversedTwice(b: Bytes)
    ensures Reversed(Reversed(b)) == b
    decreases |b|
  {
    if b != [] {
      ReversedLast(Reversed(b[1..]), b[0]);
      ReversedTwice(b[1..]);
    }
  }

  /** The bytes of a stored id. An id in memory is in the order of the keys already, and setattr converts
      it once more: where the host's order differs from the keys', its bytes are stored reversed. */
  function IdBytes(swaps: bool, n: Id): Bytes
    requires n < Power(WIDTH)
  {
    if swaps then Reversed(Enc(WIDTH, n)) else Enc(WIDTH, n)
  }

  function IdRead(swaps: bool, b: Bytes): Id {
    if swaps then Dec(Reversed(b)) else Dec(b)
  }

  lemma IdReadsBack(swaps: bool, n: Id)
    requires n < Power(WIDTH)
    ensures IdRead(swaps, IdBytes(swaps, n)) == n
  {
    DecEnc(WIDTH, n);
    ReversedTwice(Enc(WIDTH, n));
  }

  function Stored(swaps: bool, dirs: map<Key, Id>, k: Key): Option<Bytes>
    requires k in dirs ==> dirs[k] < Power(WIDTH)
  {
    if k in dirs then Some(IdBytes(swaps, dirs[k])) else None
  }

  ghost predicate Fits(dirs: map<Key, Id>) {
    forall k | k in dirs :: Storable(k) && dirs[k] < Power(WIDTH)
  }

  /** The table holds these entries and no other. */
  ghost predicate Refines(swaps: bool, rows: seq<Row>, dirs: map<Key, Id>) {
    Ordered(rows) && Fits(dirs) && forall k | Storable(k) :: Holds(swaps, rows, dirs, k)
  }

  ghost predicate Holds(swaps: bool, rows: seq<Row>, dirs: map<Key, Id>, k: Key)
    requires Storable(k) && (k in dirs ==> dirs[k] < Power(WIDTH))
  {
    Attr(rows, k.dir, Spell(k.name)) == Stored(swaps, dirs, k)
  }

  /** The one attribute of the table that is not as it was. */
  ghost predicate Changed(rows: seq<Row>, rows': seq<Row>, id: nat, name: Bytes, v: Option<Bytes>) {
    forall id': nat, name' | id' < Power(WIDTH) ::
      Attr(rows', id', name') == if id' == id && name' == name then v else Attr(rows, id', name')
  }

  lemma SpeltApart(k: Key, l: Key)
    requires Storable(k) && Storable(l) && k.dir == l.dir && Spell(k.name) == Spell(l.name)
    ensures k == l
  {
    ReadSpell(k.name);
    ReadSpell(l.name);
  }

  lemma ChangedRefines(swaps: bool, rows: seq<Row>, rows': seq<Row>, dirs: map<Key, Id>, dirs': map<Key, Id>, k: Key)
    requires Refines(swaps, rows, dirs) && Ordered(rows') && Storable(k) && Fits(dirs')
    requires Changed(rows, rows', k.dir, Spell(k.name), Stored(swaps, dirs', k))
    requires forall l | l != k :: (l in dirs' <==> l in dirs) && (l in dirs ==> dirs'[l] == dirs[l])
    ensures Refines(swaps, rows', dirs')
  {
    hide Spell, Spellable, Attr, Ordered, IdBytes;
    forall l | Storable(l)
      ensures Holds(swaps, rows', dirs', l)
    {
      assert Holds(swaps, rows, dirs, l);
      if l != k && l.dir == k.dir && Spell(l.name) == Spell(k.name) {
        SpeltApart(k, l);
      }
    }
  }

  lemma WithoutRefines(swaps: bool, rows: seq<Row>, rows': seq<Row>, dirs: map<Key, Id>, d: Id)
    requires Refines(swaps, rows, dirs) && Ordered(rows')
    requires forall id: nat, name | id < Power(WIDTH) ::
               Attr(rows', id, name) == if id == d then None else Attr(rows, id, name)
    ensures Refines(swaps, rows', Without(dirs, d))
  {
    hide Spell, Spellable, Attr, Ordered, IdBytes;
    forall l | Storable(l)
      ensures Holds(swaps, rows', Without(dirs, d), l)
    {
      assert Holds(swaps, rows, dirs, l);
    }
  }

  /** The names of a register are the named entries of its directory, each once. */
  lemma NamesAreEntries(swaps: bool, rows: seq<Row>, dirs: map<Key, Id>, d: Id)
    requires Refines(swaps, rows, dirs) && d < Power(WIDTH)
    ensures |AttrNames(rows, d)| == |NamesIn(dirs, d)|
  {
    hide AttrNames, Ordered, Spell, Spellable, Read;
    var l := AttrNames(rows, d);
    var ks := seq(|l|, i requires 0 <= i < |l| => Key(d, Read(l[i])));
    AttrNamesAscend(rows, d);
    forall i, j | 0 <= i < j < |l|
      ensures ks[i] != ks[j]
    {
      LessIrreflexive(l[i]);
      SpellRead(l[i]);
      SpellRead(l[j]);
    }
    DistinctSize(ks);
    forall k
      ensures k in ks <==> k in NamesIn(dirs, d)
    {
      if k in ks {
        var i :| 0 <= i < |ks| && ks[i] == k;
        NameIsEntry(swaps, rows, dirs, d, l[i]);
      }
      if k in NamesIn(dirs, d) {
        EntryIsNamed(swaps, rows, dirs, d, k);
        var i :| 0 <= i < |l| && l[i] == Spell(k.name);
        assert ks[i] == k;
      }
    }
    assert Elems(ks) == NamesIn(dirs, d);
  }

  lemma NameIsEntry(swaps: bool, rows: seq<Row>, dirs: map<Key, Id>, d: Id, b: Bytes)
    requires Refines(swaps, rows, dirs) && d < Power(WIDTH) && b in AttrNames(rows, d)
    ensures Key(d, Read(b)) in NamesIn(dirs, d)
  {
    hide AttrNames, Ordered, Spell, Spellable, Read;
    AttrNamesAreSet(rows, d, b);
    SpellRead(b);
    NothingSpelt(Read(b));
    assert Holds(swaps, rows, dirs, Key(d, Read(b)));
  }

  lemma EntryIsNamed(swaps: bool, rows: seq<Row>, dirs: map<Key, Id>, d: Id, k: Key)
    requires Refines(swaps, rows, dirs) && d < Power(WIDTH) && k in NamesIn(dirs, d)
    ensures Storable(k) && k.dir == d && Spell(k.name) in AttrNames(rows, d) && Read(Spell(k.name)) == k.name
  {
    hide AttrNames, Ordered, Spell, Spellable, Read;
    assert Holds(swaps, rows, dirs, k);
    AttrNamesAreSet(rows, d, Spell(k.name));
    NothingSpelt(k.name);
    ReadSpell(k.name);
  }

  class DirTable {
    const table: Table

    /** Whether the host keeps numbers in another byte order than keys do. */
    const swaps: bool

    /** The entries of all directories, as FsDbs keeps them. */
    ghost var dirs: map<Key, Id>

    ghost predicate Valid()
      reads this, table
    {
      Refines(swaps, table.rows, dirs)
    }

    constructor (table: Table, swaps: bool)
      requires table.rows == []
      ensures Valid() && dirs == map[] && this.table == table && this.swaps == swaps
    {
      this.table, this.swaps := table, swaps;
      dirs := map[];
    }

    /** getchild's lookup. */
    method GetEntry(k: Key) returns (c: Option<Id>)
      requires Valid() && Storable(k)
      ensures c == if k in dirs then Some(dirs[k]) else None
    {
      hide Spell, Attr, Ordered, IdBytes, IdRead;
      assert Holds(swaps, table.rows, dirs, k);
      var r := table.GetAttrV(k.dir, Spell(k.name));
      if r.Err? {
        return None;
      }
      IdReadsBack(swaps, dirs[k]);
      c := Some(IdRead(swaps, r.value));
    }

    /** addchild's write. */
    method SetEntry(k: Key, c: Id)
      requires Valid() && Storable(k) && c < Power(WIDTH)
      modifies this, table
      ensures Valid() && dirs == old(dirs)[k := c]
    {
      hide Spell, Spellable, Attr, Ordered, IdBytes, Put;
      ghost var rows := table.rows;
      table.SetAttrV(k.dir, Spell(k.name), IdBytes(swaps, c));
      ChangedRefines(swaps, rows, table.rows, dirs, dirs[k := c], k);
      dirs := dirs[k := c];
    }

    /** delchild's. */
    method DropEntry(k: Key) returns (found: bool)
      requires Valid() && Storable(k)
      modifies this, table
      ensures Valid() && dirs == old(dirs) - {k}
      ensures found <==> k in old(dirs)
    {
      hide Spell, Spellable, Attr, Ordered, IdBytes;
      ghost var rows := table.rows;
      assert Holds(swaps, rows, dirs, k);
      var r := table.DelAttr(k.dir, Spell(k.name));
      ChangedRefines(swaps, rows, table.rows, dirs, dirs - {k}, k);
      dirs := dirs - {k};
      found := r.Ok?;
    }

    /** Directory::remove's, for the whole register. */
    method DropEntries(d: Id)
      requires Valid() && d < Power(WIDTH)
      modifies this, table
      ensures Valid() && dirs == Without(old(dirs), d)
    {
      hide Spell, Spellable, Attr, Ordered, IdBytes;
      ghost var rows := table.rows;
      table.Remove(d);
      WithoutRefines(swaps, rows, table.rows, dirs, d);
      dirs := Without(dirs, d);
    }

    /** countchildren. */
    method CountEntries(d: Id) returns (n: nat)
      requires Valid() && d < Power(WIDTH)
      ensures n == |NamesIn(dirs, d)|
    {
      n := table.CountAttrs(d);
      NamesAreEntries(swaps, table.rows, dirs, d);
    }
  }
}
