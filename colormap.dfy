/** The colour table (`ColorMap` in src/ldr.rs): `!COLOUR` entries from
    LDConfig.ldr, indexed by code and by name. */
module ColorMaps {
  import opened Wrappers
  import opened Colors
  import opened Ldraw

  /** `ColorMap`: `values` is the slab (keys are handed out 0, 1, 2, ... and
      never freed, so a key is an index into the sequence). */
  datatype ColorMap = ColorMap(codes: map<ColorCode, nat>, names: map<string, nat>, values: seq<ColourCmd>)

  const Empty := ColorMap(map[], map[], [])

  /** One iteration of the loading loop: non-`!COLOUR` commands are skipped;
      a `!COLOUR` entry is inserted into the slab and its key recorded
      under its code and its name, replacing an earlier entry's. */
  function LoadStep<M>(m: ColorMap, cmd: Command<M>): ColorMap {
    match cmd
    case Colour(c) =>
      Insert(m, c)
    case _ => m
  }

  /** The table after loading `cmds`, in order. */
  function Loaded<M>(cmds: seq<Command<M>>): ColorMap
    decreases |cmds|
  {
    if |cmds| == 0 then Empty else LoadStep(Loaded(cmds[..|cmds| - 1]), cmds[|cmds| - 1])
  }

  /** The `!COLOUR` entries of `cmds`, in order. */
  function ColourEntries<M>(cmds: seq<Command<M>>): seq<ColourCmd>
    decreases |cmds|
  {
    if |cmds| == 0 then []
    else ColourEntries(cmds[..|cmds| - 1]) + (if cmds[|cmds| - 1].Colour? then [cmds[|cmds| - 1].colour] else [])
  }

  /** `ColorMap::load`, after the file has been read and parsed (reading and
      parsing, and their errors, are not part of this model). */
  method Load<M>(cmds: seq<Command<M>>) returns (m: ColorMap)
    ensures m == Loaded(cmds)
    ensures Indexed(m) && m.values == ColourEntries(cmds)
  {
    m := Empty;
    var i := 0;
    while i < |cmds|
      invariant 0 <= i <= |cmds|
      invariant m == Loaded(cmds[..i])
    {
      assert cmds[..i + 1][..i] == cmds[..i];
      var cmd := cmds[i];
      if cmd.Colour? {
        var c := cmd.colour;
        var key := |m.values|;
        m := m.(codes := m.codes[c.code := key], names := m.names[c.name := key], values := m.values + [c]);
      }
      i := i + 1;
    }
    assert cmds[..i] == cmds;
    LoadedIndexed(cmds);
  }

  /** `by_code`: the entry recorded under `code`, or the slab's entry 0 when
      the code is unknown; `None` stands for the panic of indexing an empty
      slab. */
  function ByCode(m: ColorMap, code: ColorCode): (r: Option<ColourCmd>)
    ensures code in m.codes && m.codes[code] < |m.values| ==> r == Some(m.values[m.codes[code]])
    ensures code !in m.codes && |m.values| > 0 ==> r == Some(m.values[0])
    ensures InRange(m) ==> (r.None? <==> |m.values| == 0)
  {
    var key := if code in m.codes then m.codes[code] else 0;
    if key < |m.values| then Some(m.values[key]) else None
  }

  /** Every key recorded under a code is a key of the slab. */
  predicate InRange(m: ColorMap) {
    forall k :: k in m.codes ==> m.codes[k] < |m.values|
  }

  /** The index invariant of a loaded table: every key names a slab entry
      with that code (or name), the last one that has it; and every slab
      entry's code and name are indexed. */
  ghost predicate Indexed(m: ColorMap) {
    CodesIndexed(m) && NamesIndexed(m) && Covered(m)
  }

  ghost predicate CodesIndexed(m: ColorMap) {
    forall k :: k in m.codes ==>
      m.codes[k] < |m.values| && m.values[m.codes[k]].code == k
      && forall j :: m.codes[k] < j < |m.values| ==> m.values[j].code != k
  }

  ghost predicate NamesIndexed(m: ColorMap) {
    forall n :: n in m.names ==>
      m.names[n] < |m.values| && m.values[m.names[n]].name == n
      && forall j :: m.names[n] < j < |m.values| ==> m.values[j].name != n
  }

  ghost predicate Covered(m: ColorMap) {
    forall j :: 0 <= j < |m.values| ==> m.values[j].code in m.codes && m.values[j].name in m.names
  }

  /** Inserting one entry keeps the index invariant. */
  lemma InsertIndexed(m: ColorMap, c: ColourCmd)
    requires Indexed(m)
    ensures Indexed(Insert(m, c))
  {
    InsertCodes(m, c);
    InsertNames(m, c);
    InsertCovered(m, c);
  }

  function Insert(m: ColorMap, c: ColourCmd): ColorMap {
    ColorMap(m.codes[c.code := |m.values|], m.names[c.name := |m.values|], m.values + [c])
  }

  lemma InsertCodes(m: ColorMap, c: ColourCmd)
    requires CodesIndexed(m)
    ensures CodesIndexed(Insert(m, c))
  {
    var m' := Insert(m, c);
    forall k | k in m'.codes
      ensures m'.codes[k] < |m'.values| && m'.values[m'.codes[k]].code == k
      ensures forall j :: m'.codes[k] < j < |m'.values| ==> m'.values[j].code != k
    {
      if k != c.code {
        assert k in m.codes && m'.codes[k] == m.codes[k];
        forall j | m'.codes[k] < j < |m'.values| ensures m'.values[j].code != k {
          if j < |m.values| { assert m'.values[j] == m.values[j]; }
        }
      }
    }
  }

  lemma InsertNames(m: ColorMap, c: ColourCmd)
    requires NamesIndexed(m)
    ensures NamesIndexed(Insert(m, c))
  {
    var m' := Insert(m, c);
    forall n | n in m'.names
      ensures m'.names[n] < |m'.values| && m'.values[m'.names[n]].name == n
      ensures forall j :: m'.names[n] < j < |m'.values| ==> m'.values[j].name != n
    {
      if n != c.name {
        assert n in m.names && m'.names[n] == m.names[n];
        forall j | m'.names[n] < j < |m'.values| ensures m'.values[j].name != n {
          if j < |m.values| { assert m'.values[j] == m.values[j]; }
        }
      }
    }
  }

  lemma InsertCovered(m: ColorMap, c: ColourCmd)
    requires Covered(m)
    ensures Covered(Insert(m, c))
  {
    var m' := Insert(m, c);
    forall j | 0 <= j < |m'.values|
      ensures m'.values[j].code in m'.codes && m'.values[j].name in m'.names
    {
      if j < |m.values| {
        assert m'.values[j] == m.values[j];
      }
    }
  }

  lemma {:induction false} LoadedIndexed<M>(cmds: seq<Command<M>>)
    ensures Indexed(Loaded(cmds))
    ensures Loaded(cmds).values == ColourEntries(cmds)
    decreases |cmds|
  {
    if |cmds| > 0 {
      LoadedIndexed(cmds[..|cmds| - 1]);
      var last := cmds[|cmds| - 1];
      if last.Colour? {
        InsertIndexed(Loaded(cmds[..|cmds| - 1]), last.colour);
      }
    }
  }

  /** The last entry in `entries` with the given code. */
  function LastWithCode(entries: seq<ColourCmd>, code: ColorCode): (r: Option<ColourCmd>)
    decreases |entries|
  {
    if |entries| == 0 then None
    else if entries[|entries| - 1].code == code then Some(entries[|entries| - 1])
    else LastWithCode(entries[..|entries| - 1], code)
  }

  lemma {:induction false} LastWithCodeIndexed(m: ColorMap, code: ColorCode)
    requires CodesIndexed(m) && Covered(m)
    ensures LastWithCode(m.values, code) == if code in m.codes then Some(m.values[m.codes[code]]) else None
  {
    var n := |m.values|;
    if code in m.codes {
      var k := m.codes[code];
      LastWithCodeFrom(m.values, code, k, n);
    } else {
      forall j | 0 <= j < n ensures m.values[j].code != code {
        assert m.values[j].code in m.codes;
      }
      LastWithCodeAbsent(m.values, code, n);
    }
    assert m.values[..n] == m.values;
  }

  lemma {:induction false} LastWithCodeFrom(values: seq<ColourCmd>, code: ColorCode, k: nat, n: nat)
    requires k < n <= |values| && values[k].code == code
    requires forall j :: k < j < n ==> values[j].code != code
    ensures LastWithCode(values[..n], code) == Some(values[k])
    decreases n
  {
    assert values[..n][..n - 1] == values[..n - 1];
    if n - 1 > k {
      LastWithCodeFrom(values, code, k, n - 1);
    }
  }

  lemma {:induction false} LastWithCodeAbsent(values: seq<ColourCmd>, code: ColorCode, n: nat)
    requires n <= |values|
    requires forall j :: 0 <= j < n ==> values[j].code != code
    ensures LastWithCode(values[..n], code) == None
    decreases n
  {
    if n > 0 {
      assert values[..n][..n - 1] == values[..n - 1];
      LastWithCodeAbsent(values, code, n - 1);
    }
  }

  /** What a lookup in the loaded LDConfig.ldr returns: the last `!COLOUR`
      entry with that code wins; an unknown code falls back to the first
      entry of the file; with no entry at all the lookup panics. */
  lemma ByCodeOfLoaded<M>(cmds: seq<Command<M>>, code: ColorCode)
    ensures Indexed(Loaded(cmds))
    ensures LastWithCode(ColourEntries(cmds), code).Some? ==>
              ByCode(Loaded(cmds), code) == LastWithCode(ColourEntries(cmds), code)
    ensures LastWithCode(ColourEntries(cmds), code).None? && |ColourEntries(cmds)| > 0 ==>
              ByCode(Loaded(cmds), code) == Some(ColourEntries(cmds)[0])
    ensures |ColourEntries(cmds)| == 0 ==> ByCode(Loaded(cmds), code).None?
  {
    LoadedIndexed(cmds);
    ByCodeIndexed(Loaded(cmds), code);
  }

  /** `by_code` on an indexed table, in terms of its slab alone. */
  lemma ByCodeIndexed(m: ColorMap, code: ColorCode)
    requires Indexed(m)
    ensures InRange(m)
    ensures code in m.codes ==> ByCode(m, code) == Some(m.values[m.codes[code]]) && ByCode(m, code).value.code == code
    ensures ByCode(m, code).None? <==> |m.values| == 0
    ensures LastWithCode(m.values, code).Some? ==> ByCode(m, code) == LastWithCode(m.values, code)
    ensures LastWithCode(m.values, code).None? && |m.values| > 0 ==> ByCode(m, code) == Some(m.values[0])
  {
    LastWithCodeIndexed(m, code);
  }

  /** Looking a name up after loading gives the last entry of that name. */
  lemma LoadedNames<M>(cmds: seq<Command<M>>, name: string)
    ensures var m := Loaded(cmds);
            name in m.names <==> exists j :: 0 <= j < |ColourEntries(cmds)| && ColourEntries(cmds)[j].name == name
    ensures var m := Loaded(cmds);
            name in m.names ==>
              var k := m.names[name];
              k < |ColourEntries(cmds)| && ColourEntries(cmds)[k].name == name
              && forall j :: k < j < |ColourEntries(cmds)| ==> ColourEntries(cmds)[j].name != name
  {
    LoadedIndexed(cmds);
  }
}
