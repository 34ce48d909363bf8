/** The sorted store behind a table, and the register operations as cursor moves over it. */
module Store {
  import opened Wrappers
  import opened Registers

  datatype Row = Row(key: Bytes, val: Bytes)

  /** Keys strictly ascend, as the B-tree keeps them. */
  ghost predicate Sorted(rows: seq<Row>) {
    forall i, j | 0 <= i < j < |rows| :: Less(rows[i].key, rows[j].key)
  }

  /** A table written through registers: each key also holds at least an id. */
  ghost predicate Ordered(rows: seq<Row>) {
    Sorted(rows) && forall i | 0 <= i < |rows| :: |rows[i].key| >= WIDTH
  }

  function IdOf(key: Bytes): nat {
    if |key| < WIDTH then 0 else Dec(key[..WIDTH])
  }

  function NameOf(key: Bytes): Bytes {
    if |key| < WIDTH then [] else key[WIDTH..]
  }

  /** getkey. */
  function KeyOf(id: nat, name: Bytes): (key: Bytes)
    requires id < Power(WIDTH)
    ensures |key| == WIDTH + |name|
  {
    Enc(WIDTH, id) + name
  }

  lemma KeyParts(id: nat, name: Bytes)
    requires id < Power(WIDTH)
    ensures IdOf(KeyOf(id, name)) == id && NameOf(KeyOf(id, name)) == name
  {
    DecEnc(WIDTH, id);
    assert KeyOf(id, name)[..WIDTH] == Enc(WIDTH, id);
  }

  lemma KeyRebuilt(key: Bytes)
    requires |key| >= WIDTH
    ensures IdOf(key) < Power(WIDTH) && KeyOf(IdOf(key), NameOf(key)) == key
  {
    EncDec(key[..WIDTH]);
    assert key == key[..WIDTH] + key[WIDTH..];
  }

  /** Key order is order on ids, then on names. */
  lemma OrderOfKeys(k: Bytes, l: Bytes)
    requires |k| >= WIDTH && |l| >= WIDTH
    ensures Less(k, l) <==> IdOf(k) < IdOf(l) || (IdOf(k) == IdOf(l) && Less(NameOf(k), NameOf(l)))
  {
    KeyRebuilt(k);
    KeyRebuilt(l);
    KeyOrder(WIDTH, IdOf(k), NameOf(k), IdOf(l), NameOf(l));
  }

  /** Where a cursor set to the range of k stands: at the first key not before k. */
  function LowerBound(rows: seq<Row>, k: Bytes): (i: nat)
    ensures i <= |rows|
    ensures forall j | 0 <= j < i :: Less(rows[j].key, k)
    ensures i < |rows| ==> !Less(rows[i].key, k)
  {
    if rows == [] || !Less(rows[0].key, k) then 0
    else
      var i := LowerBound(rows[1..], k);
      assert forall j | 0 < j <= i :: rows[j] == rows[1..][j - 1];
      i + 1
  }

  lemma AboveBound(rows: seq<Row>, k: Bytes, j: nat)
    requires Ordered(rows) && LowerBound(rows, k) <= j < |rows|
    ensures !Less(rows[j].key, k)
  {
    var i := LowerBound(rows, k);
    if i < j && Less(rows[j].key, k) {
      LessTransitive(rows[i].key, rows[j].key, k);
    }
  }

  /** The value stored under a key. */
  function Get(rows: seq<Row>, k: Bytes): Option<Bytes> {
    var i := LowerBound(rows, k);
    if i < |rows| && rows[i].key == k then Some(rows[i].val) else None
  }

  /** A row is found exactly where it is. */
  lemma GetIsMembership(rows: seq<Row>, k: Bytes, v: Bytes)
    requires Ordered(rows)
    ensures Get(rows, k) == Some(v) <==> Row(k, v) in rows
  {
    var i := LowerBound(rows, k);
    if Row(k, v) in rows {
      var j :| 0 <= j < |rows| && rows[j] == Row(k, v);
      LessIrreflexive(k);
      assert i <= j;
    }
  }

  /** put with DB_KEYFIRST: overwrites the row of the key, or inserts one. */
  function Put(rows: seq<Row>, k: Bytes, v: Bytes): seq<Row> {
    var i := LowerBound(rows, k);
    if i < |rows| && rows[i].key == k then rows[i := Row(k, v)]
    else rows[..i] + [Row(k, v)] + rows[i..]
  }

  lemma PutKeepsOrder(rows: seq<Row>, k: Bytes, v: Bytes)
    requires Ordered(rows) && |k| >= WIDTH
    ensures Ordered(Put(rows, k, v))
  {
    hide Less, LowerBound;
    var i := LowerBound(rows, k);
    if !(i < |rows| && rows[i].key == k) {
      forall j | i <= j < |rows|
        ensures Less(k, rows[j].key)
      {
        KeyAbove(rows, k, j);
      }
      InsertedSorted(rows, i, Row(k, v));
    }
  }

  lemma KeyAbove(rows: seq<Row>, k: Bytes, j: nat)
    requires Ordered(rows) && LowerBound(rows, k) <= j < |rows| && rows[LowerBound(rows, k)].key != k
    ensures Less(k, rows[j].key)
  {
    hide LowerBound;
    var i := LowerBound(rows, k);
    AboveBound(rows, k, j);
    LessTotal(k, rows[j].key);
    if rows[j].key == k {
      LessTotal(k, rows[i].key);
    }
  }

  lemma InsertedSorted(rows: seq<Row>, i: nat, r: Row)
    requires Ordered(rows) && i <= |rows| && |r.key| >= WIDTH
    requires forall j | 0 <= j < i :: Less(rows[j].key, r.key)
    requires forall j | i <= j < |rows| :: Less(r.key, rows[j].key)
    ensures Ordered(rows[..i] + [r] + rows[i..])
  {
    hide Less;
    var s := rows[..i] + [r] + rows[i..];
    assert forall j | i < j < |s| :: s[j] == rows[j - 1];
  }

  lemma PutRows(rows: seq<Row>, k: Bytes, v: Bytes, r: Row)
    requires Ordered(rows)
    ensures r in Put(rows, k, v) <==> r == Row(k, v) || (r in rows && r.key != k)
  {
    hide Less, LowerBound;
    var i := LowerBound(rows, k);
    var rows' := Put(rows, k, v);
    if i < |rows| && rows[i].key == k {
      if r in rows && r.key != k {
        var j :| 0 <= j < |rows| && rows[j] == r;
        assert rows'[j] == r;
      }
      if r in rows' && r != Row(k, v) {
        var j :| 0 <= j < |rows'| && rows'[j] == r;
        assert rows[j] == r && j != i;
        KeysDiffer(rows, i, j);
      }
      assert rows'[i] == Row(k, v);
    } else {
      assert rows == rows[..i] + rows[i..];
      if r in rows && r.key == k {
        GetIsMembership(rows, k, r.val);
      }
    }
  }

  lemma KeysDiffer(rows: seq<Row>, i: nat, j: nat)
    requires Ordered(rows) && i < |rows| && j < |rows| && i != j
    ensures rows[i].key != rows[j].key
  {
    LessIrreflexive(rows[i].key);
  }

  /** del at the cursor. */
  function Cut(rows: seq<Row>, i: nat): seq<Row>
    requires i < |rows|
  {
    rows[..i] + rows[i + 1..]
  }

  lemma CutRows(rows: seq<Row>, i: nat, r: Row)
    requires Ordered(rows) && i < |rows|
    ensures Ordered(Cut(rows, i))
    ensures r in Cut(rows, i) <==> r in rows && r.key != rows[i].key
  {
    if r in rows && r.key != rows[i].key {
      var j :| 0 <= j < |rows| && rows[j] == r;
      if j < i {
        assert Cut(rows, i)[j] == r;
      } else {
        assert Cut(rows, i)[j - 1] == r;
      }
    }
    if r in Cut(rows, i) {
      var j :| 0 <= j < |Cut(rows, i)| && Cut(rows, i)[j] == r;
      KeysDiffer(rows, i, if j < i then j else j + 1);
    }
  }

  /** The value of an attribute of a register. */
  function Attr(rows: seq<Row>, id: nat, name: Bytes): Option<Bytes>
    requires id < Power(WIDTH)
  {
    Get(rows, KeyOf(id, name))
  }

  ghost predicate LiveId(rows: seq<Row>, id: nat) {
    exists r :: r in rows && IdOf(r.key) == id
  }

  lemma GetOfRows(rows: seq<Row>, rows': seq<Row>, k: Bytes)
    requires Ordered(rows) && Ordered(rows')
    requires forall v: Bytes :: Row(k, v) in rows' <==> Row(k, v) in rows
    ensures Get(rows', k) == Get(rows, k)
  {
    if Get(rows, k).Some? {
      GetIsMembership(rows, k, Get(rows, k).value);
      GetIsMembership(rows', k, Get(rows, k).value);
    } else if Get(rows', k).Some? {
      GetIsMembership(rows, k, Get(rows', k).value);
      GetIsMembership(rows', k, Get(rows', k).value);
    }
  }

  lemma KeysOfAttrs(id: nat, name: Bytes, id': nat, name': Bytes)
    requires id < Power(WIDTH) && id' < Power(WIDTH)
    ensures KeyOf(id, name) == KeyOf(id', name') <==> id == id' && name == name'
  {
    KeyParts(id, name);
    KeyParts(id', name');
  }

  /** Writing one attribute changes that attribute of that register and no other. */
  lemma PutSetsAttr(rows: seq<Row>, id: nat, name: Bytes, v: Bytes, id': nat, name': Bytes)
    requires Ordered(rows) && id < Power(WIDTH) && id' < Power(WIDTH)
    ensures Attr(Put(rows, KeyOf(id, name), v), id', name')
            == if id' == id && name' == name then Some(v) else Attr(rows, id', name')
  {
    var rows' := Put(rows, KeyOf(id, name), v);
    PutKeepsOrder(rows, KeyOf(id, name), v);
    KeysOfAttrs(id, name, id', name');
    forall w: Bytes
      ensures Row(KeyOf(id', name'), w) in rows' <==>
              (id' == id && name' == name && w == v)
              || ((id' != id || name' != name) && Row(KeyOf(id', name'), w) in rows)
    {
      PutRows(rows, KeyOf(id, name), v, Row(KeyOf(id', name'), w));
    }
    if id' == id && name' == name {
      GetIsMembership(rows', KeyOf(id, name), v);
    } else {
      GetOfRows(rows, rows', KeyOf(id', name'));
    }
  }

  /** Deleting one attribute takes that attribute of that register away and no other. */
  lemma CutDropsAttr(rows: seq<Row>, id: nat, name: Bytes, id': nat, name': Bytes)
    requires Ordered(rows) && id < Power(WIDTH) && id' < Power(WIDTH) && Attr(rows, id, name).Some?
    ensures var i := LowerBound(rows, KeyOf(id, name));
            i < |rows| && Attr(Cut(rows, i), id', name')
                          == if id' == id && name' == name then None else Attr(rows, id', name')
  {
    var k := KeyOf(id, name);
    var i := LowerBound(rows, k);
    var rows' := Cut(rows, i);
    KeysOfAttrs(id, name, id', name');
    forall w: Bytes
      ensures Row(KeyOf(id', name'), w) in rows' <==>
              (id' != id || name' != name) && Row(KeyOf(id', name'), w) in rows
    {
      CutRows(rows, i, Row(KeyOf(id', name'), w));
    }
    if id' == id && name' == name {
      if Get(rows', k).Some? {
        GetIsMembership(rows', k, Get(rows', k).value);
      }
    } else {
      CutRows(rows, i, rows[i]);
      GetOfRows(rows, rows', KeyOf(id', name'));
    }
  }

  /** The non-empty names of a register, in key order. */
  function AttrNames(rows: seq<Row>, id: nat): seq<Bytes> {
    if rows == [] then [] else RowNames(rows[0], id) + AttrNames(rows[1..], id)
  }

  function RowNames(r: Row, id: nat): seq<Bytes> {
    if IdOf(r.key) == id && NameOf(r.key) != [] then [NameOf(r.key)] else []
  }

  lemma FirstNames(rows: seq<Row>, id: nat)
    requires rows != []
    ensures AttrNames(rows, id) == RowNames(rows[0], id) + AttrNames(rows[1..], id)
  {
  }

  lemma {:induction false} AttrNamesMembers(rows: seq<Row>, id: nat, name: Bytes)
    ensures name in AttrNames(rows, id) <==>
            name != [] && exists r :: r in rows && IdOf(r.key) == id && NameOf(r.key) == name
    decreases |rows|
  {
    if rows != [] {
      AttrNamesMembers(rows[1..], id, name);
      assert rows == [rows[0]] + rows[1..];
    }
  }

  /** getattrs lists exactly the attributes that are set, but for the empty name. */
  lemma AttrNamesAreSet(rows: seq<Row>, id: nat, name: Bytes)
    requires Ordered(rows) && id < Power(WIDTH)
    ensures name in AttrNames(rows, id) <==> name != [] && Attr(rows, id, name).Some?
  {
    AttrNamesMembers(rows, id, name);
    var k := KeyOf(id, name);
    KeyParts(id, name);
    if Get(rows, k).Some? {
      GetIsMembership(rows, k, Get(rows, k).value);
    }
    if r :| r in rows && IdOf(r.key) == id && NameOf(r.key) == name {
      KeyRebuilt(r.key);
      GetIsMembership(rows, k, r.val);
      assert r == Row(k, r.val);
    }
  }

  /** Each name is listed once, in ascending order. */
  lemma {:induction false} AttrNamesAscend(rows: seq<Row>, id: nat)
    requires Ordered(rows)
    ensures forall i, j | 0 <= i < j < |AttrNames(rows, id)| :: Less(AttrNames(rows, id)[i], AttrNames(rows, id)[j])
    decreases |rows|
  {
    if rows != [] {
      AttrNamesAscend(rows[1..], id);
      var rest := AttrNames(rows[1..], id);
      if IdOf(rows[0].key) == id && NameOf(rows[0].key) != [] {
        forall j | 0 <= j < |rest|
          ensures Less(NameOf(rows[0].key), rest[j])
        {
          AttrNamesMembers(rows[1..], id, rest[j]);
          var r :| r in rows[1..] && IdOf(r.key) == id && NameOf(r.key) == rest[j];
          OrderOfKeys(rows[0].key, r.key);
        }
        assert AttrNames(rows, id) == [NameOf(rows[0].key)] + rest;
      } else {
        assert AttrNames(rows, id) == rest;
      }
    }
  }

  /** Rows before the first key of a register, and from the first row past it on, name none of its
      attributes. */
  lemma {:induction false} NoNamesHere(rows: seq<Row>, id: nat)
    requires forall r | r in rows :: IdOf(r.key) != id
    ensures AttrNames(rows, id) == []
    decreases |rows|
  {
    if rows != [] {
      NoNamesHere(rows[1..], id);
    }
  }

  lemma {:induction false} AttrNamesSplit(rows: seq<Row>, i: nat, id: nat)
    requires i <= |rows|
    ensures AttrNames(rows, id) == AttrNames(rows[..i], id) + AttrNames(rows[i..], id)
    decreases i
  {
    if i == 0 {
      assert rows[..0] == [] && rows[0..] == rows;
    } else {
      hide AttrNames, RowNames;
      AttrNamesSplit(rows[1..], i - 1, id);
      FirstNames(rows, id);
      FirstNames(rows[..i], id);
      assert rows[1..][..i - 1] == rows[..i][1..] && rows[1..][i - 1..] == rows[i..];
    }
  }

  lemma BeforeRange(rows: seq<Row>, id: nat)
    requires Ordered(rows) && id < Power(WIDTH)
    ensures var i := LowerBound(rows, Enc(WIDTH, id));
            forall r | r in rows[..i] :: IdOf(r.key) < id
  {
    var p := Enc(WIDTH, id);
    KeyParts(id, []);
    assert KeyOf(id, []) == p;
    forall r | r in rows[..LowerBound(rows, p)]
      ensures IdOf(r.key) < id
    {
      OrderOfKeys(r.key, p);
    }
  }

  lemma AfterRange(rows: seq<Row>, id: nat, i: nat)
    requires Ordered(rows) && id < Power(WIDTH) && LowerBound(rows, Enc(WIDTH, id)) <= i <= |rows|
    requires i < |rows| ==> IdOf(rows[i].key) != id
    ensures forall r | r in rows[i..] :: IdOf(r.key) > id
  {
    var p := Enc(WIDTH, id);
    KeyParts(id, []);
    assert KeyOf(id, []) == p;
    forall r | r in rows[i..]
      ensures IdOf(r.key) > id
    {
      var j :| i <= j < |rows| && rows[j] == r;
      AboveBound(rows, p, i);
      OrderOfKeys(rows[i].key, p);
      if i < j {
        OrderOfKeys(rows[i].key, rows[j].key);
      }
    }
  }

  /** Taking a register's rows away takes all its attributes and no one else's. */
  lemma RemoveDropsRegister(rows: seq<Row>, rows': seq<Row>, id: nat, id': nat, name: Bytes)
    requires Ordered(rows) && Ordered(rows') && id' < Power(WIDTH)
    requires forall w :: w in rows' <==> w in rows && IdOf(w.key) != id
    ensures Attr(rows', id', name) == if id' == id then None else Attr(rows, id', name)
  {
    var k := KeyOf(id', name);
    KeyParts(id', name);
    if id' != id {
      GetOfRows(rows, rows', k);
    } else if Get(rows', k).Some? {
      GetIsMembership(rows', k, Get(rows', k).value);
    }
  }

  /** A table is known by its rows: the order of the keys settles the rest. */
  lemma {:induction false} SameRowsSameTable(s: seq<Row>, t: seq<Row>)
    requires Sorted(s) && Sorted(t)
    requires forall w :: w in s <==> w in t
    ensures s == t
    decreases |s|
  {
    assert t != [] ==> t[0] in t;
    if s != [] {
      assert s[0] in t;
      assert t[0] in s;
      LeastFirst(s, t[0]);
      LeastFirst(t, s[0]);
      assert s[0] == t[0] by {
        if s[0] != t[0] {
          LessTransitive(s[0].key, t[0].key, s[0].key);
          LessIrreflexive(s[0].key);
        }
      }
      forall w
        ensures w in s[1..] <==> w in t[1..]
      {
        InTail(s, w);
        InTail(t, w);
      }
      SameRowsSameTable(s[1..], t[1..]);
      assert s == [s[0]] + s[1..] && t == [t[0]] + t[1..];
    }
  }

  lemma LeastFirst(rows: seq<Row>, w: Row)
    requires Sorted(rows) && w in rows
    ensures w == rows[0] || Less(rows[0].key, w.key)
  {
  }

  lemma InTail(rows: seq<Row>, w: Row)
    requires Sorted(rows) && rows != []
    ensures w in rows[1..] <==> w in rows && w != rows[0]
  {
    LessIrreflexive(rows[0].key);
    assert rows == [rows[0]] + rows[1..];
  }
}
