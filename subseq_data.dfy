/** The Data class of subseq.py: self.data, model -> chain -> sequence and
    ids, built from the residues PyMOL reports for the requested models and
    chains, with unknown residue codes replaced by replace_with, and with
    empty chains and then empty models removed. */
module SubseqData {
  import opened Wrappers
  import opened Errors
  import opened Dicts
  import opened Text
  import opened DataIndex

  /** The records fill_data_dict hands to fill_data: translated through the
      amino-acid or the nucleic-acid table, with replace_with for an
      unknown code, or left as they are for any other search_for. For any
      other search_for get_data_from_pymol reports no record at all, so the
      records passed in are then empty. */
  function Symbolised(records: seq<Record>, searchFor: string, replaceWith: string): seq<Record> {
    if searchFor == "aminoacids" then TranslatedAll(records, AaOneLetter, replaceWith)
    else if searchFor == "nucleicacids" then TranslatedAll(records, NaOneLetter, replaceWith)
    else records
  }

  /** self.data after __init__, from the symbolised records. */
  function Contents(models: seq<string>, chainsOf: string -> seq<string>, chains: seq<string>, records: seq<Record>): Result<Index, Error> {
    var built := Built(models, chainsOf, chains, records);
    if built.Err? then Err(built.error) else Ok(DropEmptyModels(DropEmptyChains(built.value)))
  }

  /** __init__ succeeds exactly when every accepted record names a chain of
      its model. */
  lemma ContentsOk(models: seq<string>, chainsOf: string -> seq<string>, chains: seq<string>, records: seq<Record>)
    ensures Contents(models, chainsOf, chains, records).Ok? <==>
      forall k :: 0 <= k < |records| && Accepted(records[k], models, chains) ==> records[k].chain in chainsOf(records[k].model)
  {
    BuiltOk(models, chainsOf, chains, records);
  }

  /** Then every model there was requested and still has a chain. */
  lemma ContentsModels(models: seq<string>, chainsOf: string -> seq<string>, chains: seq<string>, records: seq<Record>)
    requires Contents(models, chainsOf, chains, records).Ok?
    ensures
      var e := Contents(models, chainsOf, chains, records).value;
      forall m :: m in e.values ==> m in models && e.values[m].values != map[]
  {
    BuiltContents(models, chainsOf, chains, records);
    DroppedEmpty(Built(models, chainsOf, chains, records).value);
  }

  /** Every chain there is a requested chain of its model. */
  lemma ContentsChain(models: seq<string>, chainsOf: string -> seq<string>, chains: seq<string>, records: seq<Record>, m: string, c: string)
    requires Contents(models, chainsOf, chains, records).Ok?
    requires m in Contents(models, chainsOf, chains, records).value.values
    requires c in Contents(models, chainsOf, chains, records).value.values[m].values
    ensures c in chainsOf(m) && c in chains
  {
    BuiltContents(models, chainsOf, chains, records);
    var d := Built(models, chainsOf, chains, records).value;
    DroppedEmpty(d);
    assert m in d.values;
    assert c in d.values[m].values;
    assert m in d.values ==> (c in d.values[m].values <==> c in chainsOf(m) && c in chains);
  }

  /** And every requested chain of a requested model that received a
      non-empty sequence is there. */
  lemma ContentsHas(models: seq<string>, chainsOf: string -> seq<string>, chains: seq<string>, records: seq<Record>, m: string, c: string)
    requires Contents(models, chainsOf, chains, records).Ok?
    requires m in models && c in chainsOf(m) && c in chains && Symbols(Picked(records, models, chains, m, c)) != []
    ensures m in Contents(models, chainsOf, chains, records).value.values
    ensures c in Contents(models, chainsOf, chains, records).value.values[m].values
  {
    BuiltContents(models, chainsOf, chains, records);
    var d := Built(models, chainsOf, chains, records).value;
    DroppedEmpty(d);
    assert m in d.values;
    assert c in d.values[m].values;
    assert m in d.values ==> (c in d.values[m].values <==> c in chainsOf(m) && c in chains);
  }

  /** Each chain that is there holds the symbols and the ids of its accepted
      records, in record order, at least one of them; no record of another
      model or chain contributes. */
  lemma ContentsEntries(models: seq<string>, chainsOf: string -> seq<string>, chains: seq<string>, records: seq<Record>)
    requires Contents(models, chainsOf, chains, records).Ok?
    ensures
      var e := Contents(models, chainsOf, chains, records).value;
      forall m, c :: m in e.values && c in e.values[m].values ==>
        var p := Picked(records, models, chains, m, c);
        p != [] && e.values[m].values[c] == Chain(Symbols(p), Ids(p))
  {
    BuiltContents(models, chainsOf, chains, records);
    var d := Built(models, chainsOf, chains, records).value;
    DroppedEmpty(d);
    var e := Contents(models, chainsOf, chains, records).value;
    forall m, c | m in e.values && c in e.values[m].values
      ensures Picked(records, models, chains, m, c) != []
    {
      assert Symbols(Picked(records, models, chains, m, c)) != [];
    }
  }

  /** With search_for naming one of the two tables and a one-character
      replace_with, every symbol is one character, so each chain's sequence
      and ids have the same length and ids[k] is the id of the residue whose
      symbol is sequence[k]. */
  lemma AlignedIds(models: seq<string>, chainsOf: string -> seq<string>, chains: seq<string>, records: seq<Record>,
                   searchFor: string, replaceWith: string, m: string, c: string)
    requires searchFor == "aminoacids" || searchFor == "nucleicacids"
    requires |replaceWith| == 1
    ensures
      var p := Picked(Symbolised(records, searchFor, replaceWith), models, chains, m, c);
      && |Symbols(p)| == |Ids(p)| == |p|
      && forall k :: 0 <= k < |p| ==> |p[k].resn| == 1 && Symbols(p)[k] == p[k].resn[0] && Ids(p)[k] == p[k].resi
  {
    var ts := Symbolised(records, searchFor, replaceWith);
    var p := Picked(ts, models, chains, m, c);
    TableSymbols();
    PickedFrom(ts, models, chains, m, c);
    forall k | 0 <= k < |p| ensures |p[k].resn| == 1 {
      assert p[k] in ts;
    }
    SymbolsIds(p);
  }

  class Data {
    const models: seq<string>
    const chains: seq<string>
    /** search_for, lower-cased */
    const searchFor: string
    const replaceWith: string
    /** cmd.get_chains */
    const chainsOf: string -> seq<string>
    var data: Index

    ghost predicate Valid()
      reads this
    {
      IndexValid(data)
    }

    /** __init__ as far as construct_data_dict; Create runs the rest. */
    constructor (models: seq<string>, chains: seq<string>, searchFor: string, replaceWith: string, chainsOf: string -> seq<string>)
      ensures this.models == models && this.chains == chains && this.chainsOf == chainsOf
      ensures this.searchFor == Lower(searchFor) && this.replaceWith == replaceWith
      ensures data == EmptyIndex(models, chainsOf, chains)
    {
      this.models := models;
      this.chains := chains;
      this.searchFor := Lower(searchFor);
      this.replaceWith := replaceWith;
      this.chainsOf := chainsOf;
      data := Empty();
      new;
      ConstructDataDict();
    }

    /** construct_data_dict: an empty entry for each requested chain of each
        requested model. */
    method ConstructDataDict()
      modifies this
      ensures data == EmptyIndex(models, chainsOf, chains)
    {
      data := ConstructEmpty(models, chainsOf, chains);
    }

    /** fill_data_dict: the records cmd.iterate delivered for search_for are
        symbolised in place, appended to their chains, and the empty
        entries removed. */
    method FillDataDict(records: array<Record>) returns (err: Option<Error>)
      requires Valid()
      modifies this, records
      ensures records[..] == Symbolised(old(records[..]), searchFor, replaceWith)
      ensures err.None? <==> FillFrom(old(data), records[..], models, chains).Ok?
      ensures err.Some? ==> err == Some(KeyError)
      ensures err.None? ==> Valid() && data == DropEmptyModels(DropEmptyChains(FillFrom(old(data), records[..], models, chains).value))
    {
      if searchFor == "aminoacids" {
        TranslateOrReplace(records, AaOneLetter, replaceWith);
      } else if searchFor == "nucleicacids" {
        TranslateOrReplace(records, NaOneLetter, replaceWith);
      }
      assert records[..] == Symbolised(old(records[..]), searchFor, replaceWith);
      err := FillData(records[..]);
      if err.None? {
        FilterData();
      }
    }

    /** fill_data: each accepted record's symbol and id appended to its
        chain; an accepted record whose chain has no entry raises
        KeyError. */
    method FillData(records: seq<Record>) returns (err: Option<Error>)
      requires Valid()
      modifies this
      ensures err.None? <==> FillFrom(old(data), records, models, chains).Ok?
      ensures err.Some? ==> err == Some(KeyError)
      ensures err.None? ==> Valid() && data == FillFrom(old(data), records, models, chains).value
    {
      var r := Fill(data, records, models, chains);
      if r.Err? {
        return Some(r.error);
      }
      FillContents(data, records, models, chains);
      data := r.value;
      return None;
    }

    /** filter_data: the chains with an empty sequence removed, then the
        models left with no chain. */
    method FilterData()
      requires Valid()
      modifies this
      ensures Valid() && data == DropEmptyModels(DropEmptyChains(old(data)))
    {
      var d := RemoveEmptyChains(data);
      data := RemoveUnless(d, HasChains);
    }

    /** keys(): the models, in insertion order. */
    function Keys(): (ks: seq<string>)
      requires Valid()
      reads this
      ensures forall m :: m in ks <==> m in data.values
    {
      data.keys
    }

    /** __getitem__: a tuple walks model, chain, field and index and raises
        KeyError('bad key') where a step is missing; any other key is
        looked up among the models and raises KeyError when absent. */
    function Get(key: Subscript): (r: Result<Item, Error>)
      reads this
      ensures key.Single? ==> (r.Ok? <==> key.key.Name? && key.key.name in data.values)
      ensures key.Tuple? ==> (r.Ok? <==> Walk(Models(data), key.path).Some?)
      ensures r.Err? ==> r.error == KeyError
    {
      Subscripted(data, key, KeyError)
    }
  }

  /** Data(models, chains, search_for, replace_with): records stand for
      what cmd.iterate reports and are rewritten in place. It raises
      KeyError exactly when Contents fails. */
  method Create(models: seq<string>, chains: seq<string>, searchFor: string, replaceWith: string,
                chainsOf: string -> seq<string>, records: array<Record>) returns (r: Result<Data, Error>)
    modifies records
    ensures r.Ok? <==> Contents(models, chainsOf, chains, Symbolised(old(records[..]), Lower(searchFor), replaceWith)).Ok?
    ensures r.Err? ==> r.error == KeyError
    ensures r.Ok? ==> fresh(r.value) && r.value.Valid()
    ensures r.Ok? ==> Ok(r.value.data) == Contents(models, chainsOf, chains, Symbolised(old(records[..]), Lower(searchFor), replaceWith))
  {
    var d := new Data(models, chains, searchFor, replaceWith, chainsOf);
    var err := d.FillDataDict(records);
    if err.Some? {
      return Err(err.value);
    }
    return Ok(d);
  }
}
