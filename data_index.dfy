/** The chain index the searches read -- model -> chain -> sequence and
    residue ids -- as built from the residue records PyMOL iterates over. The
    Data classes of subseq.py and subseq/Data.py and the functions of
    subseq/ss_DATA.py build it with the same loops, which are defined here
    once. */
module DataIndex {
  import opened Wrappers
  import opened Errors
  import opened Dicts

  /** One [resn, resi, chain, model] record of cmd.iterate. */
  datatype Record = Record(resn: string, resi: string, chain: string, model: string)

  /** {'sequence': ..., 'ids': [...]} */
  datatype Chain = Chain(sequence: string, ids: seq<string>)

  /** model -> chain -> entry */
  type Index = Dict<Dict<Chain>>

  ghost predicate IndexValid(d: Index) {
    Valid(d) && forall m :: m in d.values ==> Valid(d.values[m])
  }

  /** Data.aa_one_letter of subseq.py */
  const AaOneLetter: map<string, string> := map[
    "CYS" := "C", "ASP" := "D", "SER" := "S", "GLN" := "Q", "LYS" := "K",
    "ILE" := "I", "PRO" := "P", "THR" := "T", "PHE" := "F", "ASN" := "N",
    "GLY" := "G", "HIS" := "H", "LEU" := "L", "ARG" := "R", "TRP" := "W",
    "ALA" := "A", "VAL" := "V", "GLU" := "E", "TYR" := "Y", "MET" := "M"]

  /** Data.na_one_letter of subseq.py */
  const NaOneLetter: map<string, string> := map[
    "DG" := "G", "DA" := "A", "DT" := "T", "DC" := "C", "DU" := "U",
    "G" := "G", "A" := "A", "T" := "T", "C" := "C", "U" := "U"]

  /** one_letter of subseq/Data.py and subseq/ss_DATA.py, _oneLetter of
      susbseq/ss_DATA.py: the amino acids and 'CA', which contributes
      nothing. */
  const OneLetter: map<string, string> := AaOneLetter["CA" := ""]

  // ------------------------------------------------------- translation

  /** The record with its residue code looked up, or replaced by fallback
      when the table lacks it. */
  function Translated(r: Record, table: map<string, string>, fallback: string): Record {
    r.(resn := if r.resn in table then table[r.resn] else fallback)
  }

  /** Every record translated. */
  function TranslatedAll(rs: seq<Record>, table: map<string, string>, fallback: string): (ts: seq<Record>)
    ensures |ts| == |rs| && forall k :: 0 <= k < |rs| ==> ts[k] == Translated(rs[k], table, fallback)
  {
    seq(|rs|, k requires 0 <= k < |rs| => Translated(rs[k], table, fallback))
  }

  /** replace_to_aa_one_letter / replace_to_na_one_letter of subseq.py: each
      record's code becomes its one-letter symbol, or replace_with when the
      table has none; nothing raises. */
  method TranslateOrReplace(records: array<Record>, table: map<string, string>, replaceWith: string)
    modifies records
    ensures forall k :: 0 <= k < records.Length ==> records[k] == Translated(old(records[k]), table, replaceWith)
  {
    var k := 0;
    while k < records.Length
      invariant k <= records.Length
      invariant forall n :: 0 <= n < k ==> records[n] == Translated(old(records[n]), table, replaceWith)
      invariant forall n :: k <= n < records.Length ==> records[n] == old(records[n])
    {
      var r := records[k];
      if r.resn in table {
        records[k] := r.(resn := table[r.resn]);
      } else {
        records[k] := r.(resn := replaceWith);
      }
      k := k + 1;
    }
  }

  /** After that, every symbol is a value of the table or replace_with, and
      every other field is the record's own. */
  lemma TranslatedSymbols(r: Record, table: map<string, string>, fallback: string)
    ensures var t := Translated(r, table, fallback);
      (t.resn in table.Values || t.resn == fallback) && t.resi == r.resi && t.chain == r.chain && t.model == r.model
    ensures r.resn !in table ==> Translated(r, table, fallback).resn == fallback
  {
    if r.resn in table {
      assert table[r.resn] in table.Values;
    }
  }

  /** replace_to_one_letter of subseq/Data.py and _replace_to_one_letter of
      subseq/ss_DATA.py: each record's code is looked up in place, and the
      first code the table lacks raises KeyError, leaving the records before
      it translated and the rest as they were. */
  method TranslateStrict(records: array<Record>, table: map<string, string>) returns (err: Option<Error>)
    modifies records
    ensures err.None? <==> forall k :: 0 <= k < records.Length ==> old(records[k]).resn in table
    ensures err.None? ==> forall k :: 0 <= k < records.Length ==> records[k] == Translated(old(records[k]), table, "")
    ensures err.Some? ==> err == Some(KeyError) && exists bad ::
      && 0 <= bad < records.Length && old(records[bad]).resn !in table
      && (forall k :: 0 <= k < bad ==> old(records[k]).resn in table && records[k] == Translated(old(records[k]), table, ""))
      && (forall k :: bad <= k < records.Length ==> records[k] == old(records[k]))
  {
    var k := 0;
    while k < records.Length
      invariant k <= records.Length
      invariant forall n :: 0 <= n < k ==> old(records[n]).resn in table && records[n] == Translated(old(records[n]), table, "")
      invariant forall n :: k <= n < records.Length ==> records[n] == old(records[n])
    {
      var r := records[k];
      if r.resn !in table {
        return Some(KeyError);
      }
      records[k] := r.(resn := table[r.resn]);
      k := k + 1;
    }
    return None;
  }

  // ------------------------------------------------------- construction

  /** The empty entries of one model: one for each of its chains that was
      requested, in the model's chain order. */
  function ModelEntry(modelChains: seq<string>, chains: seq<string>): (e: Dict<Chain>)
    ensures Valid(e)
    ensures forall c :: c in e.values <==> c in modelChains && c in chains
    ensures forall c :: c in e.values ==> e.values[c] == Chain([], [])
  {
    if modelChains == [] then Empty()
    else
      var c := modelChains[|modelChains| - 1];
      var e := ModelEntry(modelChains[..|modelChains| - 1], chains);
      if c in chains then Put(e, c, Chain([], [])) else e
  }

  /** construct_data_dict / construct_empty_data_dict / _create_empty_dict:
      an entry for every requested model, holding the empty entries of its
      requested chains; chainsOf stands for cmd.get_chains. */
  function EmptyIndex(models: seq<string>, chainsOf: string -> seq<string>, chains: seq<string>): (d: Index)
    ensures IndexValid(d)
    ensures forall m :: m in d.values <==> m in models
    ensures forall m :: m in d.values ==> d.values[m] == ModelEntry(chainsOf(m), chains)
  {
    if models == [] then Empty()
    else
      var m := models[|models| - 1];
      Put(EmptyIndex(models[..|models| - 1], chainsOf, chains), m, ModelEntry(chainsOf(m), chains))
  }

  /** The chain loop of one model: its requested chains, each empty. */
  method ConstructEntry(modelChains: seq<string>, chains: seq<string>) returns (entry: Dict<Chain>)
    ensures entry == ModelEntry(modelChains, chains)
  {
    entry := Empty();
    var j := 0;
    while j < |modelChains|
      invariant j <= |modelChains|
      invariant entry == ModelEntry(modelChains[..j], chains)
    {
      var chain := modelChains[j];
      assert modelChains[..j + 1][..j] == modelChains[..j];
      if chain in chains {
        entry := Put(entry, chain, Chain([], []));
      }
      j := j + 1;
    }
    assert modelChains[..j] == modelChains;
  }

  /** The model loop that builds the whole empty index. */
  method ConstructEmpty(models: seq<string>, chainsOf: string -> seq<string>, chains: seq<string>) returns (d: Index)
    ensures d == EmptyIndex(models, chainsOf, chains)
  {
    d := Empty();
    var i := 0;
    while i < |models|
      invariant i <= |models|
      invariant d == EmptyIndex(models[..i], chainsOf, chains)
    {
      var model := models[i];
      var entry := ConstructEntry(chainsOf(model), chains);
      assert models[..i + 1][..i] == models[..i];
      d := Put(d, model, entry);
      i := i + 1;
    }
    assert models[..i] == models;
  }

  // ------------------------------------------------------- filling

  /** The record names a requested model and a requested chain. */
  predicate Accepted(r: Record, models: seq<string>, chains: seq<string>) {
    r.model in models && r.chain in chains
  }

  /** The index has an entry for the record's model and chain. */
  predicate Fits(d: Index, r: Record) {
    r.model in d.values && r.chain in d.values[r.model].values
  }

  /** data[model][chain]['sequence'] += resn; data[model][chain]['ids'].append(resi) */
  function Append(d: Index, r: Record): (e: Index)
    requires IndexValid(d) && Fits(d, r)
    ensures IndexValid(e)
  {
    var entries := d.values[r.model];
    var c := entries.values[r.chain];
    Put(d, r.model, Put(entries, r.chain, Chain(c.sequence + r.resn, c.ids + [r.resi])))
  }

  /** The fill loop from the index d over the records still to come: a
      record not accepted is skipped, and an accepted one without an entry
      raises KeyError. */
  function FillFrom(d: Index, records: seq<Record>, models: seq<string>, chains: seq<string>): (r: Result<Index, Error>)
    requires IndexValid(d)
    ensures r.Ok? ==> IndexValid(r.value)
    ensures r.Err? ==> r.error == KeyError
    decreases |records|
  {
    if records == [] then Ok(d)
    else if !Accepted(records[0], models, chains) then FillFrom(d, records[1..], models, chains)
    else if !Fits(d, records[0]) then Err(KeyError)
    else FillFrom(Append(d, records[0]), records[1..], models, chains)
  }

  /** fill_data / _fill_dict's first loop. */
  method Fill(d0: Index, records: seq<Record>, models: seq<string>, chains: seq<string>) returns (r: Result<Index, Error>)
    requires IndexValid(d0)
    ensures r == FillFrom(d0, records, models, chains)
  {
    var d := d0;
    var k := 0;
    while k < |records|
      invariant k <= |records| && IndexValid(d)
      invariant FillFrom(d0, records, models, chains) == FillFrom(d, records[k..], models, chains)
    {
      var rec := records[k];
      assert records[k..][1..] == records[k + 1..];
      if rec.model !in models || rec.chain !in chains {
        k := k + 1;
        continue;
      }
      if rec.model !in d.values || rec.chain !in d.values[rec.model].values {
        return Err(KeyError);
      }
      d := Append(d, rec);
      k := k + 1;
    }
    return Ok(d);
  }

  /** The same models, each with the same chains, in the same order. */
  ghost predicate SameShape(d: Index, e: Index) {
    && d.keys == e.keys && d.values.Keys == e.values.Keys
    && forall m :: m in d.values ==> d.values[m].keys == e.values[m].keys && d.values[m].values.Keys == e.values[m].values.Keys
  }

  /** The accepted records of model m and chain c, in order. */
  function Picked(records: seq<Record>, models: seq<string>, chains: seq<string>, m: string, c: string): seq<Record> {
    if records == [] then []
    else
      var r := records[0];
      (if Accepted(r, models, chains) && r.model == m && r.chain == c then [r] else [])
        + Picked(records[1..], models, chains, m, c)
  }

  /** Their symbols, concatenated. */
  function Symbols(rs: seq<Record>): string {
    if rs == [] then [] else rs[0].resn + Symbols(rs[1..])
  }

  /** Their residue ids. */
  function Ids(rs: seq<Record>): seq<string> {
    if rs == [] then [] else [rs[0].resi] + Ids(rs[1..])
  }

  /** Appending a record changes only its own chain's entry. */
  lemma AppendEntries(d: Index, r: Record)
    requires IndexValid(d) && Fits(d, r)
    ensures SameShape(d, Append(d, r))
    ensures forall m, c :: m in d.values && c in d.values[m].values ==>
      Append(d, r).values[m].values[c]
        == if m == r.model && c == r.chain
           then Chain(d.values[m].values[c].sequence + r.resn, d.values[m].values[c].ids + [r.resi])
           else d.values[m].values[c]
  {
  }

  /** The fill succeeds exactly when every accepted record has an entry. */
  lemma {:induction false} FillOk(d: Index, records: seq<Record>, models: seq<string>, chains: seq<string>)
    requires IndexValid(d)
    ensures FillFrom(d, records, models, chains).Ok? <==>
      forall k :: 0 <= k < |records| && Accepted(records[k], models, chains) ==> Fits(d, records[k])
    decreases |records|
  {
    if records != [] {
      var r, rest := records[0], records[1..];
      assert forall k :: 1 <= k < |records| ==> records[k] == rest[k - 1];
      if !Accepted(r, models, chains) {
        FillOk(d, rest, models, chains);
      } else if Fits(d, r) {
        var d' := Append(d, r);
        AppendEntries(d, r);
        FillOk(d', rest, models, chains);
        assert forall x :: Fits(d', x) <==> Fits(d, x);
      } else {
        assert !(Accepted(records[0], models, chains) ==> Fits(d, records[0]));
      }
    }
  }

  /** A successful fill keeps every model and chain, and each entry has
      gained the symbols and the ids of its accepted records, in record
      order. */
  lemma {:induction false} FillContents(d: Index, records: seq<Record>, models: seq<string>, chains: seq<string>)
    requires IndexValid(d) && FillFrom(d, records, models, chains).Ok?
    ensures
      var e := FillFrom(d, records, models, chains).value;
      && IndexValid(e) && SameShape(d, e)
      && forall m, c :: m in d.values && c in d.values[m].values ==>
           var p := Picked(records, models, chains, m, c);
           e.values[m].values[c]
             == Chain(d.values[m].values[c].sequence + Symbols(p), d.values[m].values[c].ids + Ids(p))
    decreases |records|
  {
    if records != [] {
      var r, rest := records[0], records[1..];
      if !Accepted(r, models, chains) {
        FillContents(d, rest, models, chains);
        forall m, c | m in d.values && c in d.values[m].values
          ensures Picked(records, models, chains, m, c) == Picked(rest, models, chains, m, c)
        {
          PickedHead(records, models, chains, m, c);
        }
      } else {
        var d' := Append(d, r);
        AppendEntries(d, r);
        FillContents(d', rest, models, chains);
        var e := FillFrom(d, records, models, chains).value;
        forall m, c | m in d.values && c in d.values[m].values
          ensures var p := Picked(records, models, chains, m, c);
            e.values[m].values[c]
              == Chain(d.values[m].values[c].sequence + Symbols(p), d.values[m].values[c].ids + Ids(p))
        {
          EntryStep(d, d', e, r, Picked(rest, models, chains, m, c), m, c);
          PickedHead(records, models, chains, m, c);
        }
      }
    }
  }

  /** The requested records of a chain: the first record when it is one of
      them, then those of the rest. */
  lemma PickedHead(records: seq<Record>, models: seq<string>, chains: seq<string>, m: string, c: string)
    requires records != []
    ensures Picked(records, models, chains, m, c)
         == if Accepted(records[0], models, chains) && records[0].model == m && records[0].chain == c
            then [records[0]] + Picked(records[1..], models, chains, m, c)
            else Picked(records[1..], models, chains, m, c)
  {
    assert [] + Picked(records[1..], models, chains, m, c) == Picked(records[1..], models, chains, m, c);
  }

  /** Concatenation is associative; said once, outside the big contexts
      where it is needed. */
  lemma ConcatAssoc<T>(a: seq<T>, b: seq<T>, c: seq<T>)
    ensures a + b + c == a + (b + c)
  {
  }

  /** One record's contribution to one entry. */
  lemma EntryStep(d: Index, d': Index, e: Index, r: Record, q: seq<Record>, m: string, c: string)
    requires IndexValid(d) && Fits(d, r) && d' == Append(d, r)
    requires m in d.values && c in d.values[m].values
    requires m in d'.values && c in d'.values[m].values && m in e.values && c in e.values[m].values
    requires e.values[m].values[c] == Chain(d'.values[m].values[c].sequence + Symbols(q), d'.values[m].values[c].ids + Ids(q))
    ensures m == r.model && c == r.chain ==>
      e.values[m].values[c] == Chain(d.values[m].values[c].sequence + Symbols([r] + q), d.values[m].values[c].ids + Ids([r] + q))
    ensures !(m == r.model && c == r.chain) ==>
      e.values[m].values[c] == Chain(d.values[m].values[c].sequence + Symbols(q), d.values[m].values[c].ids + Ids(q))
  {
    AppendEntries(d, r);
    var o := d.values[m].values[c];
    if m == r.model && c == r.chain {
      assert ([r] + q)[1..] == q;
      ConcatAssoc(o.sequence, r.resn, Symbols(q));
      ConcatAssoc(o.ids, [r.resi], Ids(q));
    }
  }

  /** When every symbol is one character -- always so for the lookups of
      subseq.py with a one-character replace_with -- a chain's sequence and
      ids grow in step, so ids[k] is the id of sequence[k]. */
  lemma {:induction false} SymbolsIds(rs: seq<Record>)
    requires forall k :: 0 <= k < |rs| ==> |rs[k].resn| == 1
    ensures |Symbols(rs)| == |Ids(rs)| == |rs|
    ensures forall k :: 0 <= k < |rs| ==> Symbols(rs)[k] == rs[k].resn[0] && Ids(rs)[k] == rs[k].resi
  {
    if rs != [] {
      SymbolsIds(rs[1..]);
      forall k | 0 <= k < |rs|
        ensures Symbols(rs)[k] == rs[k].resn[0] && Ids(rs)[k] == rs[k].resi
      {
        if k > 0 {
          assert Symbols(rs)[k] == Symbols(rs[1..])[k - 1];
          assert rs[1..][k - 1] == rs[k];
        }
      }
    }
  }

  /** The empty index filled from the records. */
  function Built(models: seq<string>, chainsOf: string -> seq<string>, chains: seq<string>, records: seq<Record>): Result<Index, Error> {
    FillFrom(EmptyIndex(models, chainsOf, chains), records, models, chains)
  }

  /** Building fails exactly when an accepted record names a chain its
      model does not have. */
  lemma BuiltOk(models: seq<string>, chainsOf: string -> seq<string>, chains: seq<string>, records: seq<Record>)
    ensures Built(models, chainsOf, chains, records).Ok? <==>
      forall k :: 0 <= k < |records| && Accepted(records[k], models, chains) ==> records[k].chain in chainsOf(records[k].model)
  {
    var d := EmptyIndex(models, chainsOf, chains);
    FillOk(d, records, models, chains);
    assert forall r :: Accepted(r, models, chains) ==> (Fits(d, r) <==> r.chain in chainsOf(r.model));
  }

  /** Otherwise the index has every requested model, under it every
      requested chain of that model, and each chain holds the symbols and
      the ids of its accepted records, in record order. */
  lemma BuiltContents(models: seq<string>, chainsOf: string -> seq<string>, chains: seq<string>, records: seq<Record>)
    requires Built(models, chainsOf, chains, records).Ok?
    ensures
      var e := Built(models, chainsOf, chains, records).value;
      && IndexValid(e)
      && (forall m :: m in e.values <==> m in models)
      && (forall m, c :: m in e.values ==> (c in e.values[m].values <==> c in chainsOf(m) && c in chains))
      && forall m, c :: m in e.values && c in e.values[m].values ==>
           var p := Picked(records, models, chains, m, c);
           e.values[m].values[c] == Chain(Symbols(p), Ids(p))
  {
    var d := EmptyIndex(models, chainsOf, chains);
    FillContents(d, records, models, chains);
    var e := Built(models, chainsOf, chains, records).value;
    forall m, c | m in e.values && c in e.values[m].values
      ensures e.values[m].values[c] == Chain(Symbols(Picked(records, models, chains, m, c)), Ids(Picked(records, models, chains, m, c)))
    {
      assert d.values[m].values[c] == Chain([], []);
      assert [] + Symbols(Picked(records, models, chains, m, c)) == Symbols(Picked(records, models, chains, m, c));
      assert [] + Ids(Picked(records, models, chains, m, c)) == Ids(Picked(records, models, chains, m, c));
    }
  }

  /** Every record picked for a chain is one of the records. */
  lemma {:induction false} PickedFrom(records: seq<Record>, models: seq<string>, chains: seq<string>, m: string, c: string)
    ensures forall r :: r in Picked(records, models, chains, m, c) ==> r in records && Accepted(r, models, chains) && r.model == m && r.chain == c
  {
    if records != [] {
      PickedFrom(records[1..], models, chains, m, c);
    }
  }

  /** With symbols of at most one character -- the CA entry of one_letter
      is empty -- a chain's sequence is never longer than its ids, and is
      as long exactly when no symbol is empty. */
  lemma {:induction false} SymbolsLength(rs: seq<Record>)
    requires forall r :: r in rs ==> |r.resn| <= 1
    ensures |Symbols(rs)| <= |Ids(rs)| == |rs|
    ensures |Symbols(rs)| == |Ids(rs)| <==> forall r :: r in rs ==> |r.resn| == 1
  {
    if rs != [] {
      assert forall r :: r in rs[1..] ==> r in rs;
      SymbolsLength(rs[1..]);
      if |rs[0].resn| == 0 {
        assert rs[0] in rs;
      } else {
        assert forall r :: r in rs ==> r == rs[0] || r in rs[1..];
      }
    }
  }

  /** Every symbol of the amino-acid and nucleic-acid tables is one
      letter; the CA entry of one_letter is the one empty symbol. */
  lemma TableSymbols()
    ensures forall k :: k in AaOneLetter ==> |AaOneLetter[k]| == 1
    ensures forall k :: k in NaOneLetter ==> |NaOneLetter[k]| == 1
    ensures forall k :: k in OneLetter ==> (|OneLetter[k]| == 1 <==> k != "CA") && |OneLetter[k]| <= 1
  {
  }

  /** Every record's code is in the table. */
  predicate Known(records: seq<Record>, table: map<string, string>) {
    forall r :: r in records ==> r.resn in table
  }

  /** The strict lookup through one_letter, then the build: an unknown code
      raises KeyError before anything is built. */
  function StrictBuilt(models: seq<string>, chainsOf: string -> seq<string>, chains: seq<string>, records: seq<Record>): Result<Index, Error> {
    if Known(records, OneLetter) then Built(models, chainsOf, chains, TranslatedAll(records, OneLetter, "")) else Err(KeyError)
  }

  /** TranslateStrict's success is exactly Known, and then the records are
      TranslatedAll of the old ones. */
  lemma StrictTranslation(old_: seq<Record>, new_: seq<Record>, table: map<string, string>)
    requires |new_| == |old_|
    requires forall k :: 0 <= k < |old_| ==> new_[k] == Translated(old_[k], table, "")
    ensures new_ == TranslatedAll(old_, table, "")
  {
  }

  /** The accepted CA records of model m and chain c. */
  function CaCount(records: seq<Record>, models: seq<string>, chains: seq<string>, m: string, c: string): nat {
    if records == [] then 0
    else
      var r := records[0];
      (if Accepted(r, models, chains) && r.model == m && r.chain == c && r.resn == "CA" then 1 else 0)
        + CaCount(records[1..], models, chains, m, c)
  }

  /** Through one_letter, a chain's ids outnumber its sequence by exactly
      its accepted CA records, so they line up only when there is none. */
  lemma {:induction false} IdsExceedByCa(records: seq<Record>, models: seq<string>, chains: seq<string>, m: string, c: string)
    requires Known(records, OneLetter)
    ensures var p := Picked(TranslatedAll(records, OneLetter, ""), models, chains, m, c);
      |Ids(p)| == |Symbols(p)| + CaCount(records, models, chains, m, c)
  {
    if records != [] {
      var t := TranslatedAll(records, OneLetter, "");
      var r := records[0];
      assert t[1..] == TranslatedAll(records[1..], OneLetter, "");
      assert forall x :: x in records[1..] ==> x in records;
      IdsExceedByCa(records[1..], models, chains, m, c);
      var q := Picked(t[1..], models, chains, m, c);
      TableSymbols();
      assert r in records;
      assert |t[0].resn| == (if r.resn == "CA" then 0 else 1);
      if Accepted(t[0], models, chains) && t[0].model == m && t[0].chain == c {
        assert Picked(t, models, chains, m, c) == [t[0]] + q;
        assert ([t[0]] + q)[1..] == q;
      } else {
        assert Picked(t, models, chains, m, c) == q;
      }
    }
  }

  // ------------------------------------------------------- filtering

  /** The chain entry has a sequence. */
  predicate HasResidues(c: Chain) {
    c.sequence != []
  }

  /** The model entry has a chain. */
  predicate HasChains(chains: Dict<Chain>) {
    chains.keys != []
  }

  /** Every chain with an empty sequence dropped, in every model: the models
      stay, in their order, and each keeps exactly its chains with residues,
      unchanged. */
  function DropEmptyChains(d: Index): (e: Index)
    requires IndexValid(d)
    ensures IndexValid(e) && e.keys == d.keys
    ensures forall m :: m in e.values <==> m in d.values
    ensures forall m, c :: m in d.values ==>
      (c in e.values[m].values <==> c in d.values[m].values && d.values[m].values[c].sequence != [])
    ensures forall m, c :: m in d.values && c in e.values[m].values ==> e.values[m].values[c] == d.values[m].values[c]
  {
    Dict(d.keys, map m | m in d.values :: Filtered(d.values[m], HasResidues))
  }

  /** Every model with no chain dropped: exactly the models with a chain
      stay, unchanged. */
  function DropEmptyModels(d: Index): (e: Index)
    requires IndexValid(d)
    ensures IndexValid(e)
    ensures forall m :: m in e.values <==> m in d.values && d.values[m].values != map[]
    ensures forall m :: m in e.values ==> e.values[m] == d.values[m]
  {
    assert forall m :: m in d.values ==> (HasChains(d.values[m]) <==> d.values[m].values != map[]) by {
      forall m | m in d.values
        ensures HasChains(d.values[m]) <==> d.values[m].values != map[]
      {
        var ch := d.values[m];
        if ch.keys != [] { assert ch.keys[0] in ch.values; }
        if ch.values != map[] { var k :| k in ch.values; assert k in ch.keys; }
      }
    }
    Filtered(d, HasChains)
  }

  /** Both filters together keep exactly the chains with residues, unchanged,
      and exactly the models that still have one. */
  lemma DroppedEmpty(d: Index)
    requires IndexValid(d)
    ensures var e := DropEmptyModels(DropEmptyChains(d));
      && (forall m :: m in e.values ==> m in d.values && e.values[m].values != map[])
      && (forall m, c :: m in d.values && c in d.values[m].values && d.values[m].values[c].sequence != [] ==>
            m in e.values && c in e.values[m].values)
      && (forall m, c :: m in e.values && c in e.values[m].values ==>
            c in d.values[m].values && e.values[m].values[c] == d.values[m].values[c] && d.values[m].values[c].sequence != [])
  {
    var f := DropEmptyChains(d);
    var e := DropEmptyModels(f);
    forall m, c | m in d.values && c in d.values[m].values && d.values[m].values[c].sequence != []
      ensures m in e.values && c in e.values[m].values
    {
      assert c in f.values[m].values;
    }
    forall m, c | m in e.values && c in e.values[m].values
      ensures c in d.values[m].values && e.values[m].values[c] == d.values[m].values[c] && d.values[m].values[c].sequence != []
    {
      assert e.values[m] == f.values[m];
    }
  }

  /** The first loop of filter_data: each model's empty chains removed. */
  method RemoveEmptyChains(d: Index) returns (e: Index)
    requires IndexValid(d)
    ensures e == DropEmptyChains(d)
  {
    e := d;
    var i := 0;
    while i < |d.keys|
      invariant i <= |d.keys| && FilteredUpTo(d, e, i)
    {
      var m := d.keys[i];
      var kept := RemoveUnless(e.values[m], HasResidues);
      FilteredNext(d, e, i);
      e := Put(e, m, kept);
      i := i + 1;
    }
    DroppedChains(d, e);
  }

  /** The models before the i-th hold their filtered chains, the others
      their chains as they were. */
  ghost predicate FilteredUpTo(d: Index, e: Index, i: nat)
    requires IndexValid(d)
  {
    && IndexValid(e) && e.keys == d.keys
    && forall n :: 0 <= n < |d.keys| ==>
         e.values[d.keys[n]] == if n < i then Filtered(d.values[d.keys[n]], HasResidues) else d.values[d.keys[n]]
  }

  /** Filtering the chains of the i-th model extends the filtered models by
      one and touches no other. */
  lemma FilteredNext(d: Index, e: Index, i: nat)
    requires IndexValid(d) && i < |d.keys| && FilteredUpTo(d, e, i)
    ensures FilteredUpTo(d, Put(e, d.keys[i], Filtered(e.values[d.keys[i]], HasResidues)), i + 1)
  {
    var m := d.keys[i];
    var e' := Put(e, m, Filtered(e.values[m], HasResidues));
    forall n | 0 <= n < |d.keys|
      ensures e'.values[d.keys[n]] == if n < i + 1 then Filtered(d.values[d.keys[n]], HasResidues) else d.values[d.keys[n]]
    {
      if n != i {
        assert d.keys[n] != m;
      }
    }
  }

  /** The index whose every model holds its filtered chains is
      DropEmptyChains. */
  lemma DroppedChains(d: Index, e: Index)
    requires IndexValid(d) && IndexValid(e) && e.keys == d.keys
    requires forall n :: 0 <= n < |d.keys| ==> e.values[d.keys[n]] == Filtered(d.values[d.keys[n]], HasResidues)
    ensures e == DropEmptyChains(d)
  {
    var f := DropEmptyChains(d);
    forall m | m in d.values ensures e.values[m] == f.values[m] {
      var n :| 0 <= n < |d.keys| && d.keys[n] == m;
    }
    assert e.values == f.values;
  }

  // ------------------------------------------------------- subscripts

  /** One element of a subscript: a name or a Python integer index. */
  datatype Key = Name(name: string) | Pos(pos: int)

  /** What a subscript can reach: the whole index, a model's chains, a
      chain's entry, a sequence (or one character of it) and an id list. */
  datatype Item =
    | Models(index: Index)
    | Chains(chains: Dict<Chain>)
    | Entry(entry: Chain)
    | Text(text: string)
    | IdList(ids: seq<string>)

  /** Python's s[k] on a sequence of length n: k from -n to n - 1, the
      negative ones counted from the end. */
  function PyIndex(n: nat, k: int): (r: Option<nat>)
    ensures r.Some? <==> 0 <= n + k && k < n
    ensures r.Some? ==> r.value < n && r.value % n == k % n
  {
    if 0 <= k < n then Some(k) else if 0 <= n + k && k < 0 then Some(n + k) else None
  }

  /** x[k]: a missing name is a KeyError, an index out of range an
      IndexError and a name on a string or list a TypeError -- all None
      here. */
  function Step(x: Item, k: Key): Option<Item> {
    match x
    case Models(d) =>
      if k.Name? && k.name in d.values then Some(Chains(d.values[k.name])) else None
    case Chains(d) =>
      if k.Name? && k.name in d.values then Some(Entry(d.values[k.name])) else None
    case Entry(c) =>
      if k == Name("sequence") then Some(Text(c.sequence))
      else if k == Name("ids") then Some(IdList(c.ids))
      else None
    case Text(t) =>
      if k.Pos? && PyIndex(|t|, k.pos).Some? then Some(Text([t[PyIndex(|t|, k.pos).value]])) else None
    case IdList(ids) =>
      if k.Pos? && PyIndex(|ids|, k.pos).Some? then Some(Text(ids[PyIndex(|ids|, k.pos).value])) else None
  }

  /** x = self; for k in key: x = x[k] */
  function Walk(x: Item, path: seq<Key>): Option<Item>
    decreases |path|
  {
    if path == [] then Some(x)
    else
      match Step(x, path[0])
      case None => None
      case Some(y) => Walk(y, path[1..])
  }

  /** Walking a path in two parts is walking it whole. */
  lemma {:induction false} WalkAppend(x: Item, p: seq<Key>, q: seq<Key>)
    decreases |p|
    ensures Walk(x, p + q) == if Walk(x, p).None? then None else Walk(Walk(x, p).value, q)
  {
    if p == [] {
      assert p + q == q;
    } else {
      assert (p + q)[0] == p[0] && (p + q)[1..] == p[1..] + q;
      if Step(x, p[0]).Some? {
        WalkAppend(Step(x, p[0]).value, p[1..], q);
      }
    }
  }

  /** data[(m, c, 'sequence')] and data[(m, c, 'ids')] reach the chain's
      sequence and ids exactly when the model has that chain. */
  lemma EntryPaths(d: Index, m: string, c: string)
    ensures Walk(Models(d), [Name(m), Name(c), Name("sequence")]).Some? <==> m in d.values && c in d.values[m].values
    ensures Walk(Models(d), [Name(m), Name(c), Name("ids")]).Some? <==> m in d.values && c in d.values[m].values
    ensures m in d.values && c in d.values[m].values ==>
      && Walk(Models(d), [Name(m), Name(c), Name("sequence")]) == Some(Text(d.values[m].values[c].sequence))
      && Walk(Models(d), [Name(m), Name(c), Name("ids")]) == Some(IdList(d.values[m].values[c].ids))
  {
    forall f | f == "sequence" || f == "ids"
      ensures Walk(Models(d), [Name(m), Name(c), Name(f)])
        == if m in d.values && c in d.values[m].values then Walk(Entry(d.values[m].values[c]), [Name(f)]) else None
    {
      var s := [Name(m), Name(c), Name(f)];
      assert s[1..] == [Name(c), Name(f)] && s[1..][1..] == [Name(f)];
      if m in d.values {
        assert Walk(Models(d), s) == Walk(Chains(d.values[m]), s[1..]);
      }
    }
    assert [Name("sequence")][1..] == [] && [Name("ids")][1..] == [];
  }

  /** A subscript of the Data classes: a tuple walks the nested maps, any
      other key is looked up among the models. */
  datatype Subscript = Tuple(path: seq<Key>) | Single(key: Key)

  /** __getitem__: a tuple that leads nowhere raises bad, a missing model
      raises KeyError. */
  function Subscripted(d: Index, key: Subscript, bad: Error): (r: Result<Item, Error>)
    ensures key.Single? ==> (r.Ok? <==> key.key.Name? && key.key.name in d.values)
    ensures key.Single? && r.Ok? ==> r == Ok(Chains(d.values[key.key.name]))
    ensures key.Tuple? ==> (r.Ok? <==> Walk(Models(d), key.path).Some?)
    ensures r.Err? ==> r.error == if key.Tuple? then bad else KeyError
  {
    match key
    case Single(k) => if k.Name? && k.name in d.values then Ok(Chains(d.values[k.name])) else Err(KeyError)
    case Tuple(path) => match Walk(Models(d), path) case None => Err(bad) case Some(x) => Ok(x)
  }
}
