/** get_data of subseq/ss_DATA.py: the records are looked up strictly in
    one_letter, the empty index is built and filled, and the models left
    with no chain are removed. _get_chains (cmd.get_chains) is chainsOf. */
module SsData {
  import opened Wrappers
  import opened Errors
  import opened Dicts
  import opened DataIndex

  /** What get_data returns for the records cmd.iterate reports. */
  function Fetched(models: seq<string>, chainsOf: string -> seq<string>, chains: seq<string>, records: seq<Record>): Result<Index, Error> {
    var built := StrictBuilt(models, chainsOf, chains, records);
    if built.Err? then Err(built.error) else Ok(DropEmptyModels(built.value))
  }

  /** The strict build holds exactly the requested models, each with exactly
      its requested chains. */
  lemma StrictKeys(models: seq<string>, chainsOf: string -> seq<string>, chains: seq<string>, records: seq<Record>)
    requires StrictBuilt(models, chainsOf, chains, records).Ok?
    ensures var d := StrictBuilt(models, chainsOf, chains, records).value;
      && IndexValid(d)
      && (forall m :: m in d.values <==> m in models)
      && forall m, c :: m in d.values ==> (c in d.values[m].values <==> c in chainsOf(m) && c in chains)
  {
    BuiltContents(models, chainsOf, chains, TranslatedAll(records, OneLetter, ""));
  }

  /** get_data fails exactly as the strict build does; otherwise it holds
      exactly the requested models that have a requested chain, each with
      all of its requested chains, empty or not, and their symbols and ids. */
  lemma GetDataSpec(models: seq<string>, chainsOf: string -> seq<string>, chains: seq<string>, records: seq<Record>)
    ensures Fetched(models, chainsOf, chains, records).Ok? <==> StrictBuilt(models, chainsOf, chains, records).Ok?
    ensures Fetched(models, chainsOf, chains, records).Ok? ==>
      var e := Fetched(models, chainsOf, chains, records).value;
      && (forall m :: m in e.values <==> m in models && exists c :: c in chainsOf(m) && c in chains)
      && forall m :: m in e.values ==> e.values[m] == StrictBuilt(models, chainsOf, chains, records).value.values[m]
  {
    var built := StrictBuilt(models, chainsOf, chains, records);
    if built.Ok? {
      StrictKeys(models, chainsOf, chains, records);
      var d := built.value;
      var e := DropEmptyModels(d);
      assert Fetched(models, chainsOf, chains, records) == Ok(e);
      forall m ensures m in e.values <==> m in models && exists c :: c in chainsOf(m) && c in chains {
        if m in e.values {
          assert m in d.values && d.values[m].values != map[];
          var c :| c in d.values[m].values;
          assert c in chainsOf(m) && c in chains;
        }
        if m in models && exists c :: c in chainsOf(m) && c in chains {
          var c :| c in chainsOf(m) && c in chains;
          assert c in d.values[m].values;
        }
      }
    }
  }

  /** get_data: records stand for what _init_data reads through
      cmd.iterate and are rewritten in place. */
  method GetData(models: seq<string>, chains: seq<string>, chainsOf: string -> seq<string>, records: array<Record>)
    returns (r: Result<Index, Error>)
    modifies records
    ensures r == Fetched(models, chainsOf, chains, old(records[..]))
  {
    var err := TranslateStrict(records, OneLetter);
    if err.Some? {
      assert !Known(old(records[..]), OneLetter) by {
        var bad :| 0 <= bad < records.Length && old(records[bad]).resn !in OneLetter;
        assert old(records[..])[bad] == old(records[bad]);
      }
      return Err(err.value);
    }
    StrictTranslation(old(records[..]), records[..], OneLetter);
    var completeChains := ConstructEmpty(models, chainsOf, chains);
    r := FillDict(models, chains, completeChains, records[..]);
  }

  /** _fill_dict: each accepted record appended to its chain (KeyError for a
      chain without an entry), then the models with no chain removed. */
  method FillDict(models: seq<string>, chains: seq<string>, completeChains: Index, records: seq<Record>)
    returns (r: Result<Index, Error>)
    requires IndexValid(completeChains)
    ensures FillFrom(completeChains, records, models, chains).Err? ==> r == Err(KeyError)
    ensures FillFrom(completeChains, records, models, chains).Ok? ==>
      r == Ok(DropEmptyModels(FillFrom(completeChains, records, models, chains).value))
  {
    var filled := Fill(completeChains, records, models, chains);
    if filled.Err? {
      return Err(filled.error);
    }
    var kept := RemoveUnless(filled.value, HasChains);
    return Ok(kept);
  }
}
