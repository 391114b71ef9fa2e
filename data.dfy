/** The Data class of subseq/Data.py: the same model -> chain -> sequence
    and ids index, but residue codes are looked up strictly in one_letter
    (an unknown code raises KeyError, and CA contributes an empty symbol),
    the constructor removes nothing, and filter_data, called separately,
    removes only the models with no chain. Its get_chains (from
    subseq/HelperFunctions.py) upper-cases the chain names; chainsOf stands
    for it. */
module Data {
  import opened Wrappers
  import opened Errors
  import opened Dicts
  import opened DataIndex

  /** __init__ succeeds exactly when every code is in one_letter and every
      accepted record names a chain of its model; then every requested
      model is there, empty or not, with every requested chain of it, each
      holding the symbols and ids of its accepted records. */
  lemma ContentsSpec(models: seq<string>, chainsOf: string -> seq<string>, chains: seq<string>, records: seq<Record>)
    ensures StrictBuilt(models, chainsOf, chains, records).Ok? <==>
      && Known(records, OneLetter)
      && forall k :: 0 <= k < |records| && Accepted(records[k], models, chains) ==> records[k].chain in chainsOf(records[k].model)
    ensures StrictBuilt(models, chainsOf, chains, records).Ok? ==>
      var e := StrictBuilt(models, chainsOf, chains, records).value;
      && (forall m :: m in e.values <==> m in models)
      && (forall m, c :: m in e.values ==> (c in e.values[m].values <==> c in chainsOf(m) && c in chains))
      && forall m, c :: m in e.values && c in e.values[m].values ==>
           var p := Picked(TranslatedAll(records, OneLetter, ""), models, chains, m, c);
           e.values[m].values[c] == Chain(Symbols(p), Ids(p))
  {
    var ts := TranslatedAll(records, OneLetter, "");
    if Known(records, OneLetter) {
      BuiltOk(models, chainsOf, chains, ts);
      assert forall k :: 0 <= k < |records| ==> ts[k].model == records[k].model && ts[k].chain == records[k].chain;
      if Built(models, chainsOf, chains, ts).Ok? {
        BuiltContents(models, chainsOf, chains, ts);
      }
    }
  }

  class Data {
    const models: seq<string>
    const chains: seq<string>
    /** get_chains of subseq/HelperFunctions.py */
    const chainsOf: string -> seq<string>
    var data: Index

    ghost predicate Valid()
      reads this
    {
      IndexValid(data)
    }

    /** __init__ as far as construct_empty_data_dict; Create runs the
        rest. */
    constructor (models: seq<string>, chains: seq<string>, chainsOf: string -> seq<string>)
      ensures this.models == models && this.chains == chains && this.chainsOf == chainsOf
      ensures data == EmptyIndex(models, chainsOf, chains)
    {
      this.models := models;
      this.chains := chains;
      this.chainsOf := chainsOf;
      data := Empty();
      new;
      ConstructEmptyDataDict();
    }

    /** construct_empty_data_dict */
    method ConstructEmptyDataDict()
      modifies this
      ensures data == EmptyIndex(models, chainsOf, chains)
    {
      data := ConstructEmpty(models, chainsOf, chains);
    }

    /** fill_empty_data_dict: replace_to_one_letter rewrites the records in
        place, then fill_data appends each accepted one to its chain. */
    method FillEmptyDataDict(records: array<Record>) returns (err: Option<Error>)
      requires Valid()
      modifies this, records
      ensures err.None? <==>
        Known(old(records[..]), OneLetter) && FillFrom(old(data), TranslatedAll(old(records[..]), OneLetter, ""), models, chains).Ok?
      ensures err.Some? ==> err == Some(KeyError)
      ensures err.None? ==> records[..] == TranslatedAll(old(records[..]), OneLetter, "")
      ensures err.None? ==> Valid() && data == FillFrom(old(data), records[..], models, chains).value
    {
      err := TranslateStrict(records, OneLetter);
      if err.Some? {
        assert !Known(old(records[..]), OneLetter) by {
          var bad :| 0 <= bad < records.Length && old(records[bad]).resn !in OneLetter;
          assert old(records[..])[bad] == old(records[bad]);
        }
        return;
      }
      StrictTranslation(old(records[..]), records[..], OneLetter);
      var r := Fill(data, records[..], models, chains);
      if r.Err? {
        return Some(r.error);
      }
      data := r.value;
    }

    /** filter_data: the models with no chain removed, nothing else. */
    method FilterData()
      requires Valid()
      modifies this
      ensures Valid() && data == DropEmptyModels(old(data))
    {
      data := RemoveUnless(data, HasChains);
    }

    /** keys() */
    function Keys(): (ks: seq<string>)
      requires Valid()
      reads this
      ensures forall m :: m in ks <==> m in data.values
    {
      data.keys
    }

    /** __getitem__: a tuple that leads nowhere raises 'DATA: bad key'; any
        other key is looked up among the models and raises KeyError when
        absent. */
    function Get(key: Subscript): (r: Result<Item, Error>)
      reads this
      ensures key.Single? ==> (r.Ok? <==> key.key.Name? && key.key.name in data.values)
      ensures key.Tuple? ==> (r.Ok? <==> Walk(Models(data), key.path).Some?)
      ensures r.Err? ==> r.error == if key.Tuple? then BadKeyError else KeyError
    {
      Subscripted(data, key, BadKeyError)
    }
  }

  /** Data(models, chains): records stand for what cmd.iterate reports and
      are rewritten in place. */
  method Create(models: seq<string>, chains: seq<string>, chainsOf: string -> seq<string>, records: array<Record>)
    returns (r: Result<Data, Error>)
    modifies records
    ensures r.Ok? <==> StrictBuilt(models, chainsOf, chains, old(records[..])).Ok?
    ensures r.Err? ==> r.error == KeyError
    ensures r.Ok? ==> fresh(r.value) && r.value.Valid()
    ensures r.Ok? ==> Ok(r.value.data) == StrictBuilt(models, chainsOf, chains, old(records[..]))
  {
    var d := new Data(models, chains, chainsOf);
    var err := d.FillEmptyDataDict(records);
    if err.Some? {
      return Err(err.value);
    }
    return Ok(d);
  }
}
