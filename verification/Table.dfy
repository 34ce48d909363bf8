/** A table, its registers, and the cursor loops that read and change them. */
module Tables {
  import opened Wrappers
  import opened Registers
  import opened Store
  import Namespace
  import Ops

  datatype TableError = EAttrNotFound | EReading

  /** The row an id alone would have: where createregister leaves its dummy attribute. */
  lemma DummyKey(id: nat)
    requires id < Power(WIDTH)
    ensures KeyOf(id, []) == Enc(WIDTH, id)
  {
  }

  /** Ids never descend along the table. */
  lemma IdsAscend(rows: seq<Row>, i: nat, j: nat)
    requires Ordered(rows) && i <= j < |rows|
    ensures IdOf(rows[i].key) <= IdOf(rows[j].key)
  {
    if i < j {
      OrderOfKeys(rows[i].key, rows[j].key);
    }
  }

  /** The id createregister gives out: one past the last, wrapping at the width. */
  function NewId(rows: seq<Row>): (id: nat)
    ensures id < Power(WIDTH)
  {
    if rows == [] then 0 else (IdOf(rows[|rows| - 1].key) + 1) % Power(WIDTH)
  }

  /** The last row holds the greatest live id. */
  lemma LastIsGreatest(rows: seq<Row>, id: nat)
    requires Ordered(rows) && LiveId(rows, id)
    ensures rows != [] && id <= IdOf(rows[|rows| - 1].key) && LiveId(rows, IdOf(rows[|rows| - 1].key))
  {
    var r :| r in rows && IdOf(r.key) == id;
    var i :| 0 <= i < |rows| && rows[i] == r;
    IdsAscend(rows, i, |rows| - 1);
    assert rows[|rows| - 1] in rows;
  }

  /** Unless the all-ones id is live, the new id is above every live one. */
  lemma NewIdIsGreatest(rows: seq<Row>, id: nat)
    requires Ordered(rows) && !LiveId(rows, Power(WIDTH) - 1) && LiveId(rows, id)
    ensures id < NewId(rows)
  {
    hide Power, IdOf, LiveId;
    LastIsGreatest(rows, id);
    var l := IdOf(rows[|rows| - 1].key);
    KeyRebuilt(rows[|rows| - 1].key);
    SmallMod(l + 1, Power(WIDTH));
  }

  lemma WrapsAround(a: nat, b: nat)
    requires a == b > 0
    ensures a % b == 0
  {
  }

  lemma SmallMod(a: nat, b: nat)
    requires a < b
    ensures a % b == a
  {
  }

  /** The new id is unused exactly unless the numbers have wrapped onto a live 0. */
  lemma NewIdIsFreshIff(rows: seq<Row>)
    requires Ordered(rows)
    ensures LiveId(rows, NewId(rows)) <==> LiveId(rows, Power(WIDTH) - 1) && LiveId(rows, 0)
  {
    hide Power, IdOf, LiveId;
    if LiveId(rows, Power(WIDTH) - 1) {
      LastIsGreatest(rows, Power(WIDTH) - 1);
      KeyRebuilt(rows[|rows| - 1].key);
      WrapsAround(IdOf(rows[|rows| - 1].key) + 1, Power(WIDTH));
    } else if LiveId(rows, NewId(rows)) {
      NewIdIsGreatest(rows, NewId(rows));
    }
  }

  /** A dummy row makes its id live and changes no other. */
  lemma DummyMakesLive(rows: seq<Row>, id: nat, o: nat)
    requires Ordered(rows) && id < Power(WIDTH)
    ensures LiveId(Put(rows, KeyOf(id, []), []), o) <==> LiveId(rows, o) || o == id
  {
    var k := KeyOf(id, []);
    KeyParts(id, []);
    if LiveId(rows, o) {
      var r :| r in rows && IdOf(r.key) == o;
      PutRows(rows, k, [], r);
      PutRows(rows, k, [], Row(k, []));
    } else if o == id {
      PutRows(rows, k, [], Row(k, []));
    } else if LiveId(Put(rows, k, []), o) {
      var r :| r in Put(rows, k, []) && IdOf(r.key) == o;
      PutRows(rows, k, [], r);
    }
  }

  /** A register just made has no attribute but the dummy one. */
  lemma NewRegisterIsEmpty(rows: seq<Row>, name: Bytes)
    requires Ordered(rows) && !LiveId(rows, NewId(rows))
    ensures Attr(Put(rows, KeyOf(NewId(rows), []), []), NewId(rows), name)
            == if name == [] then Some([]) else None
  {
    var id := NewId(rows);
    PutSetsAttr(rows, id, [], [], id, name);
    if Attr(rows, id, name).Some? {
      GetIsMembership(rows, KeyOf(id, name), Attr(rows, id, name).value);
      KeyParts(id, name);
      assert Row(KeyOf(id, name), Attr(rows, id, name).value) in rows;
    }
  }

  lemma WidthIs64Bits()
    ensures Power(WIDTH) == Ops.ID_LIMIT
  {
    assert Power(4) == 0x1_0000_0000;
    assert Power(8) == 256 * Power(7) == 256 * (256 * Power(6)) == 256 * (256 * (256 * (256 * Power(4))));
  }

  /** The store gives out the id that the namespace's operations are stated with. */
  lemma NewIdIsNextId(rows: seq<Row>, ids: set<Namespace.Id>)
    requires Ordered(rows)
    requires forall i: Namespace.Id :: i in ids <==> LiveId(rows, i)
    ensures NewId(rows) == Ops.NextId(ids)
  {
    WidthIs64Bits();
    if rows != [] {
      var l: Namespace.Id := IdOf(rows[|rows| - 1].key);
      assert rows[|rows| - 1] in rows && LiveId(rows, l);
      LastIsGreatest(rows, Ops.MaxId(ids));
    } else if ids != {} {
      LastIsGreatest(rows, Ops.MaxId(ids));
    }
  }

  /** One of the register's listed names. */
  ghost predicate Dropped(w: Row, id: nat, names: seq<Bytes>) {
    IdOf(w.key) == id && NameOf(w.key) in names
  }

  lemma NoSuchKey(rows: seq<Row>, k: Bytes)
    requires Ordered(rows) && Get(rows, k).None?
    ensures forall w | w in rows :: w.key != k
  {
    forall w | w in rows
      ensures w.key != k
    {
      GetIsMembership(rows, k, w.val);
      assert w == Row(w.key, w.val);
    }
  }

  /** The names before the i-th are gone and the i-th is still set. */
  lemma StillThere(before: seq<Row>, rows: seq<Row>, id: nat, l: seq<Bytes>, i: nat)
    requires Ordered(before) && Ordered(rows) && id < Power(WIDTH)
    requires l == AttrNames(before, id) && i < |l|
    requires forall j, k | 0 <= j < k < |l| :: Less(l[j], l[k])
    requires forall w {:trigger w in rows} :: w in rows <==> w in before && !Dropped(w, id, l[..i])
    ensures Get(rows, KeyOf(id, l[i])).Some?
  {
    AttrNamesMembers(before, id, l[i]);
    var r :| r in before && IdOf(r.key) == id && NameOf(r.key) == l[i];
    LessIrreflexive(l[i]);
    assert l[i] !in l[..i];
    assert r in before && !Dropped(r, id, l[..i]);
    assert r in rows;
    KeyRebuilt(r.key);
    assert r == Row(KeyOf(id, l[i]), r.val);
    GetIsMembership(rows, KeyOf(id, l[i]), r.val);
  }

  lemma OneMoreName(w: Row, id: nat, l: seq<Bytes>, i: nat)
    requires id < Power(WIDTH) && i < |l| && |w.key| >= WIDTH
    ensures Dropped(w, id, l[..i + 1]) <==> Dropped(w, id, l[..i]) || w.key == KeyOf(id, l[i])
  {
    assert l[..i + 1] == l[..i] + [l[i]];
    KeyRebuilt(w.key);
    KeyParts(id, l[i]);
  }

  /** Every row of the register is under one of its names, or under none. */
  lemma AllDropped(rows: seq<Row>, id: nat, w: Row)
    requires Ordered(rows) && id < Power(WIDTH) && w in rows
    ensures IdOf(w.key) == id <==> Dropped(w, id, AttrNames(rows, id)) || w.key == KeyOf(id, [])
  {
    AttrNamesMembers(rows, id, NameOf(w.key));
    KeyRebuilt(w.key);
    KeyParts(id, []);
  }

  lemma RangeStarts(rows: seq<Row>, id: nat)
    requires Ordered(rows) && id < Power(WIDTH)
    ensures AttrNames(rows[..LowerBound(rows, Enc(WIDTH, id))], id) == []
  {
    BeforeRange(rows, id);
    NoNamesHere(rows[..LowerBound(rows, Enc(WIDTH, id))], id);
  }

  /** Past the stretch of keys with its id, a register has no more names. */
  lemma RangeEnds(rows: seq<Row>, id: nat, i: nat)
    requires Ordered(rows) && id < Power(WIDTH) && LowerBound(rows, Enc(WIDTH, id)) <= i <= |rows|
    requires i < |rows| ==> IdOf(rows[i].key) != id
    ensures AttrNames(rows, id) == AttrNames(rows[..i], id)
  {
    AfterRange(rows, id, i);
    NoNamesHere(rows[i..], id);
    AttrNamesSplit(rows, i, id);
  }

  lemma OneMoreRow(rows: seq<Row>, i: nat, id: nat)
    requires i < |rows|
    ensures AttrNames(rows[..i + 1], id) == AttrNames(rows[..i], id) + AttrNames([rows[i]], id)
    ensures AttrNames([rows[i]], id)
            == if IdOf(rows[i].key) == id && |rows[i].key| > WIDTH then [NameOf(rows[i].key)] else []
  {
    AttrNamesSplit(rows[..i + 1], i, id);
    assert rows[..i + 1][..i] == rows[..i] && rows[..i + 1][i..] == [rows[i]];
    assert AttrNames([rows[i]][1..], id) == [];
  }

  ghost predicate Ascending(ids: seq<nat>) {
    forall i, j | 0 <= i < j < |ids| :: ids[i] < ids[j]
  }

  lemma IdInRange(key: Bytes)
    ensures IdOf(key) < Power(WIDTH)
  {
  }

  lemma AppendAscending(ids: seq<nat>, id: nat)
    requires Ascending(ids) && forall o | o in ids :: o < id
    ensures Ascending(ids + [id])
  {
    forall i, j | 0 <= i < j < |ids| + 1
      ensures (ids + [id])[i] < (ids + [id])[j]
    {
      assert ids[i] in ids;
    }
  }

  lemma Appended(s: seq<Bytes>, t: seq<Bytes>, u: seq<Bytes>)
    ensures (s + t) + u == s + (t + u) && s + t + [] == s + t
  {
  }

  /** What getregisters has listed after i rows: their ids, but not an all-ones id that is first. */
  ghost predicate Seen(rows: seq<Row>, i: nat, o: nat)
    requires i <= |rows|
  {
    exists j :: 0 <= j < i && IdOf(rows[j].key) == o
                && (o == Power(WIDTH) - 1 ==> IdOf(rows[0].key) != o)
  }

  lemma SeeFirst(rows: seq<Row>, o: nat)
    requires rows != []
    ensures Seen(rows, 1, o) <==> o == IdOf(rows[0].key) && o != Power(WIDTH) - 1
  {
    assert o == IdOf(rows[0].key) && o != Power(WIDTH) - 1 ==> IdOf(rows[0].key) == o;
  }

  lemma SeeOneMore(rows: seq<Row>, i: nat, o: nat)
    requires Ordered(rows) && 0 < i < |rows|
    ensures IdOf(rows[i - 1].key) <= IdOf(rows[i].key)
    ensures Seen(rows, i + 1, o) <==>
            Seen(rows, i, o) || (o == IdOf(rows[i].key) && o != IdOf(rows[i - 1].key))
  {
    hide IdOf, Power, Sorted;
    IdsAscend(rows, 0, i - 1);
    IdsAscend(rows, i - 1, i);
    IdInRange(rows[i].key);
    if o == IdOf(rows[i].key) && o != IdOf(rows[i - 1].key) {
      assert 0 <= i < i + 1 && IdOf(rows[i].key) == o;
    }
    if Seen(rows, i + 1, o) {
      var j :| 0 <= j < i + 1 && IdOf(rows[j].key) == o && (o == Power(WIDTH) - 1 ==> IdOf(rows[0].key) != o);
      if j == i && o == IdOf(rows[i - 1].key) {
        assert 0 <= i - 1 < i && IdOf(rows[i - 1].key) == o;
      }
    }
  }

  /** getregisters' list after i rows: ascending, and what it has seen. */
  ghost predicate Listed(rows: seq<Row>, i: nat, out: seq<nat>, lastId: nat)
    requires i <= |rows|
  {
    && (i == 0 ==> out == []) && Ascending(out) && (forall o | o in out :: o <= lastId)
    && forall o: nat {:trigger o in out} :: o in out <==> Seen(rows, i, o)
  }

  lemma NoneListed(rows: seq<Row>)
    ensures Listed(rows, 0, [], Power(WIDTH) - 1)
  {
  }

  lemma ListedTurn(rows: seq<Row>, i: nat, out: seq<nat>, lastId: nat)
    requires Ordered(rows) && i < |rows| && Listed(rows, i, out, lastId)
    requires lastId == if i == 0 then Power(WIDTH) - 1 else IdOf(rows[i - 1].key)
    ensures var id := IdOf(rows[i].key);
            Listed(rows, i + 1, if id != lastId then out + [id] else out, id)
  {
    hide Ordered, IdOf, Power, Seen;
    var id := IdOf(rows[i].key);
    forall o: nat
      ensures Seen(rows, i + 1, o) <==> Seen(rows, i, o) || (o == id && o != lastId)
    {
      if i == 0 {
        SeeFirst(rows, o);
        NoneSeen(rows, o);
      } else {
        SeeOneMore(rows, i, o);
      }
    }
    if id != lastId {
      if i > 0 {
        IdsAscend(rows, i - 1, i);
      }
      AppendAscending(out, id);
    }
  }

  lemma NoneSeen(rows: seq<Row>, o: nat)
    ensures !Seen(rows, 0, o)
  {
  }

  lemma AllListed(rows: seq<Row>, i: nat, out: seq<nat>, lastId: nat)
    requires Ordered(rows) && i <= |rows| && Listed(rows, i, out, lastId)
    requires i == |rows| || |rows[i].key| < WIDTH
    ensures Ascending(out)
    ensures forall o: nat :: o in out <==>
              LiveId(rows, o) && (o == Power(WIDTH) - 1 ==> exists p: nat :: p != o && LiveId(rows, p))
  {
    hide LiveId, Seen, Power;
    forall o: nat
      ensures o in out <==>
              LiveId(rows, o) && (o == Power(WIDTH) - 1 ==> exists p: nat :: p != o && LiveId(rows, p))
    {
      SeenAll(rows, o);
    }
  }

  lemma SeenAll(rows: seq<Row>, o: nat)
    requires Ordered(rows)
    ensures Seen(rows, |rows|, o) <==>
            LiveId(rows, o) && (o == Power(WIDTH) - 1 ==> exists p: nat :: p != o && LiveId(rows, p))
  {
    if Seen(rows, |rows|, o) {
      var j :| 0 <= j < |rows| && IdOf(rows[j].key) == o && (o == Power(WIDTH) - 1 ==> IdOf(rows[0].key) != o);
      assert rows[j] in rows && rows[0] in rows;
      assert LiveId(rows, o) && LiveId(rows, IdOf(rows[0].key));
    }
    if LiveId(rows, o) && (o == Power(WIDTH) - 1 ==> exists p: nat :: p != o && LiveId(rows, p)) {
      var r :| r in rows && IdOf(r.key) == o;
      var j :| 0 <= j < |rows| && rows[j] == r;
      if o == Power(WIDTH) - 1 {
        var p: nat :| p != o && LiveId(rows, p);
        FirstIsLeast(rows, p);
      }
      assert 0 <= j < |rows| && IdOf(rows[j].key) == o;
    }
  }

  lemma FirstIsLeast(rows: seq<Row>, p: nat)
    requires Ordered(rows) && LiveId(rows, p)
    ensures rows != [] && IdOf(rows[0].key) <= p < Power(WIDTH)
  {
    var r :| r in rows && IdOf(r.key) == p;
    var i :| 0 <= i < |rows| && rows[i] == r;
    IdsAscend(rows, 0, i);
    KeyRebuilt(r.key);
  }

  class Table {
    var rows: seq<Row>

    method GetAttrV(id: nat, name: Bytes) returns (r: Result<Bytes, TableError>)
      requires id < Power(WIDTH)
      ensures r == match Attr(rows, id, name) case Some(v) => Ok(v) case None => Err(EAttrNotFound)
    {
      var i := LowerBound(rows, KeyOf(id, name));
      if i == |rows| || rows[i].key != KeyOf(id, name) {
        return Err(EAttrNotFound);
      }
      return Ok(rows[i].val);
    }

    method SetAttrV(id: nat, name: Bytes, v: Bytes)
      requires Ordered(rows) && id < Power(WIDTH)
      modifies this
      ensures Ordered(rows) && rows == Put(old(rows), KeyOf(id, name), v)
      ensures forall id': nat, name' | id' < Power(WIDTH) ::
                Attr(rows, id', name') == if id' == id && name' == name then Some(v) else Attr(old(rows), id', name')
    {
      forall id': nat, name' | id' < Power(WIDTH)
        ensures Attr(Put(rows, KeyOf(id, name), v), id', name')
                == if id' == id && name' == name then Some(v) else Attr(rows, id', name')
      {
        PutSetsAttr(rows, id, name, v, id', name');
      }
      PutKeepsOrder(rows, KeyOf(id, name), v);
      rows := Put(rows, KeyOf(id, name), v);
    }

    /** The row of the attribute goes; without one, nothing changes. */
    method DelAttr(id: nat, name: Bytes) returns (r: Result<(), TableError>)
      requires Ordered(rows) && id < Power(WIDTH)
      modifies this
      ensures Ordered(rows)
      ensures r == if Attr(old(rows), id, name).Some? then Ok(()) else Err(EAttrNotFound)
      ensures forall w :: w in rows <==> w in old(rows) && w.key != KeyOf(id, name)
      ensures forall id': nat, name' | id' < Power(WIDTH) ::
                Attr(rows, id', name') == if id' == id && name' == name then None else Attr(old(rows), id', name')
    {
      forall id': nat, name' | id' < Power(WIDTH) && Attr(rows, id, name).Some?
        ensures Attr(Cut(rows, LowerBound(rows, KeyOf(id, name))), id', name')
                == if id' == id && name' == name then None else Attr(rows, id', name')
      {
        CutDropsAttr(rows, id, name, id', name');
      }
      var k := KeyOf(id, name);
      var i := LowerBound(rows, k);
      if i == |rows| || rows[i].key != k {
        NoSuchKey(rows, k);
        return Err(EAttrNotFound);
      }
      forall w: Row
        ensures Ordered(Cut(rows, i))
        ensures w in Cut(rows, i) <==> w in rows && w.key != k
      {
        CutRows(rows, i, w);
      }
      rows := Cut(rows, i);
      return Ok(());
    }

    /** A cursor walks the register's stretch of the table. */
    method GetAttrs(id: nat, attrs: seq<Bytes>) returns (attrs': seq<Bytes>)
      requires Ordered(rows) && id < Power(WIDTH)
      ensures attrs' == attrs + AttrNames(rows, id)
    {
      hide AttrNames, Sorted, LowerBound, IdOf, NameOf;
      attrs' := attrs;
      var i := LowerBound(rows, Enc(WIDTH, id));
      RangeStarts(rows, id);
      while i < |rows| && |rows[i].key| >= WIDTH && IdOf(rows[i].key) == id
        invariant LowerBound(rows, Enc(WIDTH, id)) <= i <= |rows|
        invariant attrs' == attrs + AttrNames(rows[..i], id)
      {
        if |rows[i].key| > WIDTH {
          attrs' := attrs' + [NameOf(rows[i].key)];
        }
        OneMoreRow(rows, i, id);
        Appended(attrs, AttrNames(rows[..i], id), AttrNames([rows[i]], id));
        i := i + 1;
      }
      RangeEnds(rows, id, i);
    }

    method CountAttrs(id: nat) returns (count: nat)
      requires Ordered(rows) && id < Power(WIDTH)
      ensures count == |AttrNames(rows, id)|
    {
      hide AttrNames, Sorted, LowerBound, IdOf, NameOf;
      count := 0;
      var i := LowerBound(rows, Enc(WIDTH, id));
      RangeStarts(rows, id);
      while i < |rows| && |rows[i].key| >= WIDTH && IdOf(rows[i].key) == id
        invariant LowerBound(rows, Enc(WIDTH, id)) <= i <= |rows|
        invariant count == |AttrNames(rows[..i], id)|
      {
        if |rows[i].key| > WIDTH {
          count := count + 1;
        }
        OneMoreRow(rows, i, id);
        i := i + 1;
      }
      RangeEnds(rows, id, i);
    }

    /** Every key of the register goes, and no other. */
    method Remove(id: nat)
      requires Ordered(rows) && id < Power(WIDTH)
      modifies this
      ensures Ordered(rows)
      ensures forall w :: w in rows <==> w in old(rows) && IdOf(w.key) != id
      ensures forall id': nat, name | id' < Power(WIDTH) ::
                Attr(rows, id', name) == if id' == id then None else Attr(old(rows), id', name)
    {
      var l := GetAttrs(id, []);
      AttrNamesAscend(rows, id);
      var i := 0;
      while i < |l|
        invariant 0 <= i <= |l| && Ordered(rows)
        invariant forall w {:trigger w in rows} :: w in rows <==> w in old(rows) && !Dropped(w, id, l[..i])
      {
        StillThere(old(rows), rows, id, l, i);
        var r := DelAttr(id, l[i]);
        assert r.Ok?;
        forall w: Row | w in old(rows)
          ensures Dropped(w, id, l[..i + 1]) <==> Dropped(w, id, l[..i]) || w.key == KeyOf(id, l[i])
        {
          OneMoreName(w, id, l, i);
        }
        i := i + 1;
      }
      assert l[..|l|] == l;
      var _ := DelAttr(id, []);
      forall w: Row | w in old(rows)
        ensures IdOf(w.key) == id <==> Dropped(w, id, l) || w.key == KeyOf(id, [])
      {
        AllDropped(old(rows), id, w);
      }
      forall id': nat, name | id' < Power(WIDTH)
        ensures Attr(rows, id', name) == if id' == id then None else Attr(old(rows), id', name)
      {
        RemoveDropsRegister(old(rows), rows, id, id', name);
      }
    }

    /** createregister. A last key too short to hold an id is the one error it reports. */
    method CreateRegister() returns (r: Result<nat, TableError>)
      requires Sorted(rows)
      modifies this
      ensures r == Err(EReading) || (r.Ok? && r.value == NewId(old(rows)))
      ensures r == Err(EReading) <==> old(rows) != [] && |old(rows)[|old(rows)| - 1].key| < WIDTH
      ensures rows == if r.Ok? then Put(old(rows), KeyOf(NewId(old(rows)), []), []) else old(rows)
      ensures old(Ordered(rows)) ==> Ordered(rows)
    {
      var id := 0;
      if rows != [] {
        var key := rows[|rows| - 1].key;
        if |key| < WIDTH {
          return Err(EReading);
        }
        id := (Dec(key[..WIDTH]) + 1) % Power(WIDTH);
      }
      hide Sorted, Put, Power, KeyOf;
      DummyKey(id);
      if Ordered(rows) {
        PutKeepsOrder(rows, KeyOf(id, []), []);
      }
      rows := Put(rows, Enc(WIDTH, id), []);
      return Ok(id);
    }

    /** getregisters: every live id once, in ascending order; but the all-ones id, which the loop
        takes for "no id yet", is missed when no other id is live. */
    method GetRegisters(regs: seq<nat>) returns (regs': seq<nat>)
      requires Ordered(rows)
      ensures |regs| <= |regs'| && regs'[..|regs|] == regs && Ascending(regs'[|regs|..])
      ensures forall o: nat :: o in regs'[|regs|..] <==>
                          LiveId(rows, o) && (o == Power(WIDTH) - 1 ==> exists p: nat :: p != o && LiveId(rows, p))
    {
      hide Ordered, LiveId, IdOf, Power, Listed, Ascending;
      NoneListed(rows);
      var out: seq<nat> := [];
      var lastId := Power(WIDTH) - 1;
      var i := 0;
      while i < |rows| && |rows[i].key| >= WIDTH
        invariant 0 <= i <= |rows|
        invariant lastId == if i == 0 then Power(WIDTH) - 1 else IdOf(rows[i - 1].key)
        invariant Listed(rows, i, out, lastId)
      {
        var id := IdOf(rows[i].key);
        ListedTurn(rows, i, out, lastId);
        if id != lastId {
          out := out + [id];
          lastId := id;
        }
        i := i + 1;
      }
      AllListed(rows, i, out, lastId);
      regs' := regs + out;
      assert regs'[|regs|..] == out;
    }
  }
}
