/** Matching a text against a compiled format: cutting it at the leftmost delimiters, and filling
    in the fields with what lies between. */
module Matching {
  import opened Wrappers
  import opened Formats

  /** The pieces cut off so far, where the rest of the text begins, and whether every delimiter
      was found. */
  datatype Cuts = Cuts(vals: seq<string>, end: nat, ok: bool)

  function CutText(toks: seq<DTok>, text: string, pos: nat): (c: Cuts)
    requires pos <= |text|
    ensures pos <= c.end <= |text| && |c.vals| <= |toks| && (c.ok <==> |c.vals| == |toks|)
  {
    if toks == [] then Cuts([], pos, true)
    else match Find(text, toks[0].delimiter, pos)
         case None => Cuts([], pos, false)
         case Some(i) =>
           var c := CutText(toks[1..], text, i + |toks[0].delimiter|);
           Cuts([text[pos..i]] + c.vals, c.end, c.ok)
  }

  /** Each piece followed by its delimiter. */
  function Render(toks: seq<DTok>, vals: seq<string>): string
    requires |toks| == |vals|
  {
    if toks == [] then "" else vals[0] + toks[0].delimiter + Render(toks[1..], vals[1..])
  }

  /** The delimiter that follows a piece is the first one in sight. */
  predicate Clean(v: string, d: string) {
    forall j | 0 <= j < |v| :: !OccursAt(v + d, d, j)
  }

  predicate AllClean(toks: seq<DTok>, vals: seq<string>)
    requires |toks| == |vals|
  {
    forall i | 0 <= i < |toks| :: Clean(vals[i], toks[i].delimiter)
  }

  lemma OccursInside(text: string, d: string, a: nat, b: nat, j: nat)
    requires a + j + |d| <= b <= |text|
    ensures OccursAt(text[a..b], d, j) <==> OccursAt(text, d, a + j)
  {
    SliceOf(text, a, b, j, j + |d|);
  }

  /** The leftmost delimiter is at i exactly if the piece before it is clean. */
  lemma FindIffClean(text: string, d: string, pos: nat, i: nat)
    requires pos <= i <= |text|
    ensures Find(text, d, pos) == Some(i) <==> OccursAt(text, d, i) && Clean(text[pos..i], d)
  {
    if OccursAt(text, d, i) {
      hide Find, OccursAt;
      PieceAndDelimiter(text, d, pos, i);
      forall j | 0 <= j < i - pos
        ensures OccursAt(text[pos..i] + d, d, j) <==> OccursAt(text, d, pos + j)
      {
        OccursInside(text, d, pos, i + |d|, j);
      }
      if Find(text, d, pos) == Some(i) {
        forall j | 0 <= j < i - pos
          ensures !OccursAt(text[pos..i] + d, d, j)
        {
          assert !OccursAt(text, d, pos + j);
        }
      }
      if Clean(text[pos..i], d) {
        forall k | pos <= k < i
          ensures !OccursAt(text, d, k)
        {
          assert !OccursAt(text[pos..i] + d, d, k - pos);
        }
        FoundAt(text, d, pos, i);
      }
    }
  }

  lemma PieceAndDelimiter(text: string, d: string, pos: nat, i: nat)
    requires pos <= i && OccursAt(text, d, i)
    ensures i + |d| <= |text| && text[pos..i] + d == text[pos..i + |d|]
  {
  }

  /** What was cut is clean and renders back to the text it was cut from; the delimiter that was
      missed is nowhere in the rest. */
  lemma {:induction false} CutsRender(toks: seq<DTok>, text: string, pos: nat)
    requires pos <= |text|
    ensures var c := CutText(toks, text, pos);
            var n := |c.vals|;
            && text[pos..c.end] == Render(toks[..n], c.vals)
            && AllClean(toks[..n], c.vals)
            && (!c.ok ==> forall j | j >= c.end :: !OccursAt(text, toks[n].delimiter, j))
    decreases |toks|
  {
    hide Find, OccursAt, Clean, AllClean;
    if toks == [] || Find(text, toks[0].delimiter, pos).None? {
      NothingCut(toks, text, pos);
    } else {
      var d := toks[0].delimiter;
      var i := Find(text, d, pos).value;
      var c := CutText(toks[1..], text, i + |d|);
      var n := |c.vals|;
      CutsRender(toks[1..], text, i + |d|);
      FindIffClean(text, d, pos, i);
      assert toks[..n + 1] == [toks[0]] + toks[1..][..n];
      ConsClean(toks[0], text[pos..i], toks[1..][..n], c.vals);
      Joined(text, d, pos, i, c.end);
      assert ([text[pos..i]] + c.vals)[1..] == c.vals && toks[..n + 1][1..] == toks[1..][..n];
    }
  }

  lemma NothingCut(toks: seq<DTok>, text: string, pos: nat)
    requires pos <= |text| && (toks == [] || Find(text, toks[0].delimiter, pos).None?)
    ensures var c := CutText(toks, text, pos);
            && c.vals == [] && c.end == pos && text[pos..pos] == Render(toks[..0], []) && AllClean(toks[..0], [])
            && (!c.ok ==> forall j | j >= pos :: !OccursAt(text, toks[0].delimiter, j))
  {
  }

  lemma ConsClean(t: DTok, v: string, toks: seq<DTok>, vals: seq<string>)
    requires |toks| == |vals| && Clean(v, t.delimiter) && AllClean(toks, vals)
    ensures AllClean([t] + toks, [v] + vals)
  {
    hide Clean;
    forall i | 0 <= i < |toks| + 1
      ensures Clean(([v] + vals)[i], ([t] + toks)[i].delimiter)
    {
      if i > 0 {
        assert Clean(vals[i - 1], toks[i - 1].delimiter);
      }
    }
  }

  lemma TailClean(toks: seq<DTok>, vals: seq<string>)
    requires |toks| == |vals| > 0 && AllClean(toks, vals)
    ensures Clean(vals[0], toks[0].delimiter) && AllClean(toks[1..], vals[1..])
  {
    hide Clean;
    forall i | 0 <= i < |toks| - 1
      ensures Clean(vals[1..][i], toks[1..][i].delimiter)
    {
      assert Clean(vals[i + 1], toks[i + 1].delimiter);
    }
  }

  lemma Joined(text: string, d: string, pos: nat, i: nat, end: nat)
    requires pos <= i && OccursAt(text, d, i) && i + |d| <= end <= |text|
    ensures text[pos..end] == text[pos..i] + d + text[i + |d|..end]
  {
    assert text[pos..end] == text[pos..i] + text[i..i + |d|] + text[i + |d|..end];
  }

  /** Clean pieces are cut off as they were put in, wherever the text starts and ends. */
  lemma {:induction false} CutOfRender(toks: seq<DTok>, vals: seq<string>, text: string, pos: nat, end: nat)
    requires |toks| == |vals| && AllClean(toks, vals)
    requires pos <= end <= |text| && text[pos..end] == Render(toks, vals)
    ensures CutText(toks, text, pos) == Cuts(vals, end, true)
    decreases |toks|
  {
    hide Find, OccursAt, Clean, AllClean, Render;
    RenderTurn(toks, vals);
    if toks == [] {
      assert vals == [];
    } else {
      var d := toks[0].delimiter;
      var i := pos + |vals[0]|;
      TailClean(toks, vals);
      Leading(text, pos, end, vals[0], d, Render(toks[1..], vals[1..]));
      FindIffClean(text, d, pos, i);
      CutOfRender(toks[1..], vals[1..], text, i + |d|, end);
      assert vals == [vals[0]] + vals[1..];
    }
  }

  lemma RenderTurn(toks: seq<DTok>, vals: seq<string>)
    requires |toks| == |vals|
    ensures Render(toks, vals)
            == if toks == [] then "" else vals[0] + toks[0].delimiter + Render(toks[1..], vals[1..])
  {
  }

  lemma Leading(text: string, pos: nat, end: nat, v: string, d: string, rest: string)
    requires pos <= end <= |text| && text[pos..end] == v + d + rest
    ensures var i := pos + |v|;
            i + |d| <= end && text[pos..i] == v && OccursAt(text, d, i) && text[i + |d|..end] == rest
  {
    var i := pos + |v|;
    SliceOf(text, pos, end, 0, |v|);
    SliceOf(text, pos, end, |v|, |v| + |d|);
    SliceOf(text, pos, end, |v| + |d|, end - pos);
    var w := v + d + rest;
    assert w[0..|v|] == v && w[|v|..|v| + |d|] == d && w[|v| + |d|..end - pos] == rest;
  }

  lemma SliceOf(text: string, a: nat, b: nat, c: nat, e: nat)
    requires a <= b <= |text| && c <= e <= b - a
    ensures text[a..b][c..e] == text[a + c..a + e]
  {
    forall k | 0 <= k < e - c
      ensures text[a..b][c..e][k] == text[a + c..a + e][k]
    {
      assert text[a..b][c..e][k] == text[a..b][c + k] == text[a + c + k];
    }
  }

  /** A match succeeds with these pieces exactly if the text begins with them, each followed by
      its delimiter and holding no earlier one. */
  lemma MatchIff(toks: seq<DTok>, text: string, vals: seq<string>, end: nat)
    requires end <= |text|
    ensures CutText(toks, text, 0) == Cuts(vals, end, true) <==>
            |vals| == |toks| && text[..end] == Render(toks, vals) && AllClean(toks, vals)
  {
    assert text[..end] == text[0..end];
    assert toks[..|toks|] == toks;
    if CutText(toks, text, 0) == Cuts(vals, end, true) {
      CutsRender(toks, text, 0);
    }
    if |vals| == |toks| && text[..end] == Render(toks, vals) && AllClean(toks, vals) {
      CutOfRender(toks, vals, text, 0, end);
    }
  }

  /** The members a match can fill in. */
  datatype Filled = Filled(values: map<nat, string>, params: map<nat, map<string, string>>)

  function ParamsOf(f: Filled, id: nat): map<string, string> {
    if id in f.params then f.params[id] else map[]
  }

  /** A plain member is overwritten; a parameter that is there already is not (map::insert). */
  function Fill(f: Filled, t: DTok, v: string): Filled {
    match t.spec.field
    case NoField => f
    case Value(id) => f.(values := f.values[id := v])
    case Params(id) =>
      if t.param in ParamsOf(f, id) then f
      else f.(params := f.params[id := ParamsOf(f, id)[t.param := v]])
  }

  function FillAll(f: Filled, toks: seq<DTok>, vals: seq<string>): Filled
    requires |toks| >= |vals|
    decreases |vals|
  {
    if vals == [] then f
    else Fill(FillAll(f, toks, vals[..|vals| - 1]), toks[|vals| - 1], vals[|vals| - 1])
  }

  /** A plain member holds the last of its pieces, or what it held before. */
  lemma {:induction false} LastValueWins(f: Filled, toks: seq<DTok>, vals: seq<string>, id: nat, i: int)
    requires |toks| >= |vals| && -1 <= i < |vals|
    requires i >= 0 ==> toks[i].spec.field == Value(id)
    requires forall j | i < j < |vals| :: toks[j].spec.field != Value(id)
    ensures var g := FillAll(f, toks, vals);
            if i >= 0 then id in g.values && g.values[id] == vals[i]
            else (id in g.values <==> id in f.values) && (id in f.values ==> g.values[id] == f.values[id])
    decreases |vals|
  {
    if vals != [] && i < |vals| - 1 {
      LastValueWins(f, toks, vals[..|vals| - 1], id, i);
    }
  }

  /** A parameter holds the first of its pieces; one that was set before keeps what it held. */
  lemma {:induction false} FirstParamWins(f: Filled, toks: seq<DTok>, vals: seq<string>, id: nat, p: string, i: nat)
    requires |toks| >= |vals| && i <= |vals|
    requires i < |vals| ==> toks[i].spec.field == Params(id) && toks[i].param == p
    requires forall j | 0 <= j < i :: !(toks[j].spec.field == Params(id) && toks[j].param == p)
    ensures var g := ParamsOf(FillAll(f, toks, vals), id);
            if p in ParamsOf(f, id) then p in g && g[p] == ParamsOf(f, id)[p]
            else if i < |vals| then p in g && g[p] == vals[i]
            else p !in g
    decreases |vals|
  {
    if vals != [] {
      var n := |vals| - 1;
      FirstParamWins(f, toks, vals[..n], id, p, if i < n then i else n);
    }
  }

  /** The pieces of a text, after some that were cut off before. */
  function Onto(vals: seq<string>, c: Cuts): Cuts {
    Cuts(vals + c.vals, c.end, c.ok)
  }

  lemma CutNone(toks: seq<DTok>, text: string)
    ensures CutText(toks, text, 0) == Onto([], CutText(toks[0..], text, 0))
  {
    assert toks[0..] == toks;
    assert [] + CutText(toks, text, 0).vals == CutText(toks, text, 0).vals;
  }

  lemma CutStep(toks: seq<DTok>, it: nat, text: string, pos: nat, vals: seq<string>)
    requires it < |toks| && pos <= |text|
    ensures Onto(vals, CutText(toks[it..], text, pos))
            == match Find(text, toks[it].delimiter, pos)
               case None => Cuts(vals, pos, false)
               case Some(i) =>
                 Onto(vals + [text[pos..i]], CutText(toks[it + 1..], text, i + |toks[it].delimiter|))
  {
    hide Find, OccursAt;
    assert toks[it..][1..] == toks[it + 1..];
    var d := toks[it].delimiter;
    match Find(text, d, pos)
    case None => assert vals + [] == vals;
    case Some(i) =>
      var c := CutText(toks[it + 1..], text, i + |d|);
      assert vals + ([text[pos..i]] + c.vals) == vals + [text[pos..i]] + c.vals;
  }

  lemma CutEnd(toks: seq<DTok>, text: string, pos: nat, vals: seq<string>)
    requires pos <= |text|
    ensures Onto(vals, CutText(toks[|toks|..], text, pos)) == Cuts(vals, pos, true)
  {
    assert vals + [] == vals;
  }

  lemma FillNone(f: Filled, toks: seq<DTok>)
    ensures FillAll(f, toks, []) == f
  {
  }

  lemma FillStep(f: Filled, toks: seq<DTok>, vals: seq<string>, v: string)
    requires |vals| < |toks|
    ensures FillAll(f, toks, vals + [v]) == Fill(FillAll(f, toks, vals), toks[|vals|], v)
  {
    assert (vals + [v])[..|vals|] == vals;
  }

  class FieldMap {
    var filled: Filled

    /** Format::match. Pieces found before a missing delimiter stay filled in. */
    method Match(toks: seq<DTok>, text: string) returns (ok: bool)
      modifies this
      ensures var c := CutText(toks, text, 0);
              ok == c.ok && filled == FillAll(old(filled), toks, c.vals)
    {
      hide Find, OccursAt, Fill, CutText, FillAll;
      var pos0: nat := 0;
      var it := 0;
      ghost var vals: seq<string> := [];
      FillNone(filled, toks);
      CutNone(toks, text);
      while it < |toks|
        invariant 0 <= it <= |toks| && pos0 <= |text| && |vals| == it
        invariant CutText(toks, text, 0) == Onto(vals, CutText(toks[it..], text, pos0))
        invariant filled == FillAll(old(filled), toks, vals)
      {
        var t := toks[it];
        CutStep(toks, it, text, pos0, vals);
        var pos1 := Find(text, t.delimiter, pos0);
        if pos1.None? {
          return false;
        }
        var v := text[pos0..pos1.value];
        filled := Fill(filled, t, v);
        FillStep(old(filled), toks, vals, v);
        vals := vals + [v];
        pos0 := pos1.value + |t.delimiter|;
        it := it + 1;
      }
      CutEnd(toks, text, pos0, vals);
      return true;
    }
  }
}
