/** susbseq/ss_DATA.py, the prototype's data module: its state is two
    module-level globals -- the record list _aa_dict['aa_list'] and
    _complete_chains, model -> chain -> sequence -- which get_data refills
    on every call without clearing. Residue ids are not kept. */
module PrototypeData {
  import opened Wrappers
  import opened Errors
  import opened DataIndex

  /** model -> chain -> sequence */
  type Chains = map<string, map<string, string>>

  // ------------------------------------------------------- _filter_data

  /** What _filter_data is meant to leave: the records of a requested model
      and a requested chain, in their order. */
  function Whitelisted(records: seq<Record>, models: seq<string>, chains: seq<string>): (ws: seq<Record>)
    ensures |ws| <= |records|
    ensures forall r {:trigger r in ws} :: r in ws <==> r in records && Accepted(r, models, chains)
  {
    if records == [] then []
    else
      var r := records[|records| - 1];
      Whitelisted(records[..|records| - 1], models, chains) + if Accepted(r, models, chains) then [r] else []
  }

  /** for i in range(i, n): del aa_list[i] when the record at i is not
      requested -- the loop as written, over the list as it shrinks; reading
      past its end raises IndexError. */
  function FilterAsWritten(records: seq<Record>, i: nat, n: nat, models: seq<string>, chains: seq<string>): Result<seq<Record>, Error>
    decreases n - i
  {
    if i >= n then Ok(records)
    else if i >= |records| then Err(IndexError)
    else if !Accepted(records[i], models, chains) then FilterAsWritten(records[..i] + records[i + 1..], i + 1, n, models, chains)
    else FilterAsWritten(records, i + 1, n, models, chains)
  }

  /** A list already shorter than the range fails. */
  lemma {:induction false} ShortListFails(records: seq<Record>, i: nat, n: nat, models: seq<string>, chains: seq<string>)
    requires |records| < n && i < n && i <= |records| + 1
    ensures FilterAsWritten(records, i, n, models, chains) == Err(IndexError)
    decreases n - i
  {
    if i < |records| {
      if !Accepted(records[i], models, chains) {
        ShortListFails(records[..i] + records[i + 1..], i + 1, n, models, chains);
      } else {
        ShortListFails(records, i + 1, n, models, chains);
      }
    }
  }

  /** A list whose records are all requested is its own whitelist. */
  lemma {:induction false} WhitelistedAll(records: seq<Record>, models: seq<string>, chains: seq<string>)
    requires forall k :: 0 <= k < |records| ==> Accepted(records[k], models, chains)
    ensures Whitelisted(records, models, chains) == records
  {
    if records != [] {
      var p, r := records[..|records| - 1], records[|records| - 1];
      assert Whitelisted(p, models, chains) == p by {
        WhitelistedAll(p, models, chains);
      }
      assert records == p + [r];
    }
  }

  /** _filter_data as written raises IndexError exactly when a record that
      is not requested comes before the last position; otherwise (no such
      record, or only the last one) it leaves exactly the whitelist. */
  lemma {:induction false} FilterAsWrittenOutcome(records: seq<Record>, i: nat, models: seq<string>, chains: seq<string>)
    requires i <= |records|
    requires forall k :: 0 <= k < i ==> Accepted(records[k], models, chains)
    ensures FilterAsWritten(records, i, |records|, models, chains)
      == if exists k :: i <= k < |records| - 1 && !Accepted(records[k], models, chains)
         then Err(IndexError) else Ok(Whitelisted(records, models, chains))
    decreases |records| - i
  {
    var n := |records|;
    if i < n {
      if !Accepted(records[i], models, chains) {
        var rest := records[..i] + records[i + 1..];
        if i < n - 1 {
          ShortListFails(rest, i + 1, n, models, chains);
        } else {
          assert rest == records[..n - 1];
          WhitelistedAll(records[..n - 1], models, chains);
          assert Whitelisted(records, models, chains) == records[..n - 1];
        }
      } else {
        FilterAsWrittenOutcome(records, i + 1, models, chains);
        if exists k :: i + 1 <= k < n - 1 && !Accepted(records[k], models, chains) {
        } else {
          assert !exists k :: i <= k < n - 1 && !Accepted(records[k], models, chains);
        }
      }
    } else {
      WhitelistedAll(records, models, chains);
    }
  }

  /** The smallest case: one record of another chain followed by one
      requested record. The first is deleted, the list has one element, and
      the second iteration reads aa_list[1]. */
  lemma FilterAsWrittenFails()
    ensures
      var skipped := Record("ALA", "1", "B", "m");
      var wanted := Record("GLY", "2", "A", "m");
      && Whitelisted([skipped, wanted], ["m"], ["A"]) == [wanted]
      && FilterAsWritten([skipped, wanted], 0, 2, ["m"], ["A"]) == Err(IndexError)
  {
    var skipped := Record("ALA", "1", "B", "m");
    var wanted := Record("GLY", "2", "A", "m");
    assert [skipped, wanted][..0] + [skipped, wanted][1..] == [wanted];
    assert [skipped, wanted][..1] == [skipped];
  }

  // ------------------------------------------------------- _construct_aa_chains

  /** {chain: '' for chain in chains} */
  function Blank(chains: seq<string>): (d: map<string, string>)
    ensures forall c :: c in d <==> c in chains
    ensures forall c :: c in d ==> d[c] == ""
  {
    map c | c in chains :: ""
  }

  /** for model in models: _complete_chains[model] = Blank(chains) -- the
      full cross product, over whatever earlier calls left. */
  function Reset(cc: Chains, models: seq<string>, chains: seq<string>): (r: Chains)
    ensures forall m :: m in r <==> m in cc || m in models
    ensures forall m :: m in r ==> r[m] == if m in models then Blank(chains) else cc[m]
  {
    map m | m in cc.Keys + (set k | k in models) :: if m in models then Blank(chains) else cc[m]
  }

  /** One more chain: one more blank entry. */
  lemma BlankSnoc(chains: seq<string>, c: string)
    ensures Blank(chains + [c]) == Blank(chains)[c := ""]
  {
  }

  /** One more model: its entry replaced by a blank one. */
  lemma ResetSnoc(cc: Chains, models: seq<string>, m: string, chains: seq<string>)
    ensures Reset(cc, models + [m], chains) == Reset(cc, models, chains)[m := Blank(chains)]
  {
  }

  /** _complete_chains[model][chain] += resn */
  function AddSymbol(cc: Chains, x: Record): (r: Chains)
    requires x.model in cc && x.chain in cc[x.model]
  {
    cc[x.model := cc[x.model][x.chain := cc[x.model][x.chain] + x.resn]]
  }

  /** It changes only the record's own chain. */
  lemma AddSymbolEntries(cc: Chains, x: Record)
    requires x.model in cc && x.chain in cc[x.model]
    ensures SameKeys(cc, AddSymbol(cc, x))
    ensures forall m :: m in cc && m != x.model ==> AddSymbol(cc, x)[m] == cc[m]
    ensures forall c :: c in cc[x.model] ==>
      AddSymbol(cc, x)[x.model][c] == if c == x.chain then cc[x.model][c] + x.resn else cc[x.model][c]
  {
  }

  /** for i in aa_list: AddSymbol, raising KeyError for a model or chain
      without an entry. */
  function AppendAll(cc: Chains, records: seq<Record>): (r: Result<Chains, Error>)
    ensures r.Err? ==> r.error == KeyError
    decreases |records|
  {
    if records == [] then Ok(cc)
    else
      var x := records[0];
      if x.model in cc && x.chain in cc[x.model] then AppendAll(AddSymbol(cc, x), records[1..])
      else Err(KeyError)
  }

  /** The records of model m and chain c, in order. */
  function Of(records: seq<Record>, m: string, c: string): seq<Record> {
    if records == [] then []
    else if records[0].model == m && records[0].chain == c then [records[0]] + Of(records[1..], m, c)
    else Of(records[1..], m, c)
  }

  /** Every record has an entry. */
  ghost predicate AllFit(cc: Chains, records: seq<Record>) {
    forall r :: r in records ==> r.model in cc && r.chain in cc[r.model]
  }

  /** The same models, each with the same chains. */
  ghost predicate SameKeys(cc: Chains, e: Chains) {
    && e.Keys == cc.Keys
    && forall m :: m in cc ==> e[m].Keys == cc[m].Keys
  }

  /** When every record has an entry, appending succeeds and keeps every
      model and chain. */
  lemma {:induction false} AppendAllOk(cc: Chains, records: seq<Record>)
    requires AllFit(cc, records)
    ensures AppendAll(cc, records).Ok? && SameKeys(cc, AppendAll(cc, records).value)
    decreases |records|
  {
    if records != [] {
      var x := records[0];
      assert x in records;
      var cc' := AddSymbol(cc, x);
      assert AppendAll(cc, records) == AppendAll(cc', records[1..]);
      AddSymbolEntries(cc, x);
      assert forall r :: r in records[1..] ==> r in records;
      AppendAllOk(cc', records[1..]);
    }
  }

  /** And each chain gains its records' symbols, in order. */
  lemma {:induction false} AppendAllContents(cc: Chains, records: seq<Record>, m: string, c: string)
    requires AllFit(cc, records)
    requires m in cc && c in cc[m]
    ensures var e := AppendAll(cc, records);
      && e.Ok? && m in e.value && c in e.value[m]
      && e.value[m][c] == cc[m][c] + Symbols(Of(records, m, c))
    decreases |records|
  {
    AppendAllOk(cc, records);
    if records == [] {
      assert cc[m][c] + [] == cc[m][c];
    } else {
      var x := records[0];
      assert x in records;
      var cc' := AddSymbol(cc, x);
      assert AppendAll(cc, records) == AppendAll(cc', records[1..]);
      AddSymbolEntries(cc, x);
      assert forall r :: r in records[1..] ==> r in records;
      AppendAllContents(cc', records[1..], m, c);
      var q := Of(records[1..], m, c);
      if m == x.model && c == x.chain {
        assert Of(records, m, c) == [x] + q;
        assert Symbols([x] + q) == x.resn + Symbols(q) by { assert ([x] + q)[1..] == q; }
        ConcatAssoc(cc[m][c], x.resn, Symbols(q));
      } else {
        assert Of(records, m, c) == q;
        if m != x.model {
          assert cc'[m] == cc[m];
        } else {
          assert cc'[x.model][c] == cc[x.model][c];
        }
      }
    }
  }

  /** The records of a requested model and chain, as Picked sees them. */
  lemma {:induction false} OfWhitelisted(records: seq<Record>, models: seq<string>, chains: seq<string>, m: string, c: string)
    requires forall k :: 0 <= k < |records| ==> Accepted(records[k], models, chains)
    ensures Of(records, m, c) == Picked(records, models, chains, m, c)
  {
    if records != [] {
      OfWhitelisted(records[1..], models, chains, m, c);
    }
  }

  /** _complete_chains after get_data with the intended filter. */
  function Chained(cc: Chains, records: seq<Record>, models: seq<string>, chains: seq<string>): Result<Chains, Error>
  {
    var kept := Whitelisted(records, models, chains);
    if Known(kept, OneLetter) then AppendAll(Reset(cc, models, chains), TranslatedAll(kept, OneLetter, ""))
    else Err(KeyError)
  }

  /** The requested records, looked up, all have an entry in the reset
      chains. */
  lemma WhitelistFits(cc: Chains, records: seq<Record>, models: seq<string>, chains: seq<string>)
    ensures AllFit(Reset(cc, models, chains), TranslatedAll(Whitelisted(records, models, chains), OneLetter, ""))
  {
    var kept := Whitelisted(records, models, chains);
    var ts := TranslatedAll(kept, OneLetter, "");
    forall r | r in ts ensures Accepted(r, models, chains) {
      var k :| 0 <= k < |ts| && ts[k] == r;
      assert kept[k] in kept;
    }
  }

  /** Every record left by the whitelist and the lookup is requested. */
  lemma WhitelistAccepted(records: seq<Record>, models: seq<string>, chains: seq<string>)
    ensures var ts := TranslatedAll(Whitelisted(records, models, chains), OneLetter, "");
      forall k :: 0 <= k < |ts| ==> Accepted(ts[k], models, chains)
  {
    var kept := Whitelisted(records, models, chains);
    var ts := TranslatedAll(kept, OneLetter, "");
    forall k | 0 <= k < |ts| ensures Accepted(ts[k], models, chains) {
      assert kept[k] in kept;
    }
  }

  /** No record left by the whitelist and the lookup names a model that was
      not requested. */
  lemma WhitelistNames(records: seq<Record>, models: seq<string>, chains: seq<string>, m: string)
    requires m !in models
    ensures forall r :: r in TranslatedAll(Whitelisted(records, models, chains), OneLetter, "") ==> r.model != m
  {
    var kept := Whitelisted(records, models, chains);
    var ts := TranslatedAll(kept, OneLetter, "");
    forall r | r in ts ensures r.model != m {
      var k :| 0 <= k < |ts| && ts[k] == r;
      assert kept[k] in kept;
    }
  }

  /** get_data fails exactly when a requested record has a code one_letter
      lacks; otherwise it keeps every model it had and adds the requested
      ones, and a model asked for only by an earlier call keeps its old
      chains. */
  lemma ChainedModels(cc: Chains, records: seq<Record>, models: seq<string>, chains: seq<string>)
    ensures Chained(cc, records, models, chains).Ok? <==> Known(Whitelisted(records, models, chains), OneLetter)
    ensures Chained(cc, records, models, chains).Ok? ==>
      var e := Chained(cc, records, models, chains).value;
      && (forall m :: m in e <==> m in cc || m in models)
      && (forall m :: m in e && m !in models ==> e[m] == cc[m])
      && (forall m :: m in models ==> e[m].Keys == Blank(chains).Keys)
  {
    var kept := Whitelisted(records, models, chains);
    if Known(kept, OneLetter) {
      var base := Reset(cc, models, chains);
      var ts := TranslatedAll(kept, OneLetter, "");
      WhitelistFits(cc, records, models, chains);
      AppendAllOk(base, ts);
      var e := AppendAll(base, ts).value;
      forall m | m in e && m !in models ensures e[m] == cc[m] {
        WhitelistNames(records, models, chains, m);
        AppendUntouched(base, ts, m);
      }
    }
  }

  /** A model no record names is left as it was. */
  lemma {:induction false} AppendUntouched(cc: Chains, records: seq<Record>, m: string)
    requires AllFit(cc, records) && m in cc
    requires forall r :: r in records ==> r.model != m
    ensures AppendAll(cc, records).Ok? && m in AppendAll(cc, records).value
    ensures AppendAll(cc, records).value[m] == cc[m]
    decreases |records|
  {
    AppendAllOk(cc, records);
    if records != [] {
      var x := records[0];
      assert x in records;
      var cc' := AddSymbol(cc, x);
      assert AppendAll(cc, records) == AppendAll(cc', records[1..]);
      AddSymbolEntries(cc, x);
      assert forall r :: r in records[1..] ==> r in records;
      AppendUntouched(cc', records[1..], m);
    }
  }

  /** Then every requested chain of every requested model holds exactly the
      symbols of its requested records, in order. */
  lemma ChainedEntry(cc: Chains, records: seq<Record>, models: seq<string>, chains: seq<string>, m: string, c: string)
    requires Chained(cc, records, models, chains).Ok?
    requires m in models && c in chains
    ensures m in Chained(cc, records, models, chains).value
    ensures
      && c in Chained(cc, records, models, chains).value[m]
      && Chained(cc, records, models, chains).value[m][c]
         == Symbols(Picked(TranslatedAll(records, OneLetter, ""), models, chains, m, c))
  {
    ChainedModels(cc, records, models, chains);
    var kept := Whitelisted(records, models, chains);
    var base := Reset(cc, models, chains);
    var ts := TranslatedAll(kept, OneLetter, "");
    WhitelistFits(cc, records, models, chains);
    AppendAllContents(base, ts, m, c);
    WhitelistAccepted(records, models, chains);
    OfWhitelisted(ts, models, chains, m, c);
    PickedTranslated(records, models, chains, m, c);
    assert "" + Symbols(Of(ts, m, c)) == Symbols(Of(ts, m, c));
  }

  /** Picking the requested records of a chain before or after the
      whitelist and the lookup gives the same records. */
  lemma {:induction false} PickedTranslated(records: seq<Record>, models: seq<string>, chains: seq<string>, m: string, c: string)
    ensures Picked(TranslatedAll(Whitelisted(records, models, chains), OneLetter, ""), models, chains, m, c)
         == Picked(TranslatedAll(records, OneLetter, ""), models, chains, m, c)
    decreases |records|
  {
    if records != [] {
      var p, r := records[..|records| - 1], records[|records| - 1];
      PickedTranslated(p, models, chains, m, c);
      var w := Whitelisted(p, models, chains);
      var tail := if Accepted(r, models, chains) then [r] else [];
      assert Whitelisted(records, models, chains) == w + tail;
      assert records == p + [r];
      TranslatedAllAppend(w, tail);
      TranslatedAllAppend(p, [r]);
      PickedAppend(TranslatedAll(w, OneLetter, ""), TranslatedAll(tail, OneLetter, ""), models, chains, m, c);
      PickedAppend(TranslatedAll(p, OneLetter, ""), TranslatedAll([r], OneLetter, ""), models, chains, m, c);
      PickedOne(r, models, chains, m, c);
    }
  }

  /** The lookup distributes over concatenation. */
  lemma TranslatedAllAppend(xs: seq<Record>, ys: seq<Record>)
    ensures TranslatedAll(xs + ys, OneLetter, "") == TranslatedAll(xs, OneLetter, "") + TranslatedAll(ys, OneLetter, "")
  {
    var l, r := TranslatedAll(xs + ys, OneLetter, ""), TranslatedAll(xs, OneLetter, "") + TranslatedAll(ys, OneLetter, "");
    forall k | 0 <= k < |l| ensures l[k] == r[k] {
      if k >= |xs| {
        assert (xs + ys)[k] == ys[k - |xs|];
      }
    }
  }

  /** Picking one looked-up record keeps it when it is requested and of the
      chain, whether it is picked before or after the lookup. */
  lemma PickedOne(r: Record, models: seq<string>, chains: seq<string>, m: string, c: string)
    ensures Picked(TranslatedAll(if Accepted(r, models, chains) then [r] else [], OneLetter, ""), models, chains, m, c)
         == Picked(TranslatedAll([r], OneLetter, ""), models, chains, m, c)
  {
    var t := Translated(r, OneLetter, "");
    assert TranslatedAll([r], OneLetter, "") == [t];
    assert Picked([t], models, chains, m, c) == (if Accepted(t, models, chains) && t.model == m && t.chain == c then [t] else []) + Picked([], models, chains, m, c);
  }

  /** Picking distributes over concatenation. */
  lemma {:induction false} PickedAppend(xs: seq<Record>, ys: seq<Record>, models: seq<string>, chains: seq<string>, m: string, c: string)
    ensures Picked(xs + ys, models, chains, m, c) == Picked(xs, models, chains, m, c) + Picked(ys, models, chains, m, c)
  {
    if xs == [] {
      assert xs + ys == ys;
    } else {
      assert (xs + ys)[0] == xs[0] && (xs + ys)[1..] == xs[1..] + ys;
      PickedAppend(xs[1..], ys, models, chains, m, c);
    }
  }

  /** The module's two globals. */
  class Store {
    /** _aa_dict['aa_list'] */
    var aaList: seq<Record>
    /** _complete_chains */
    var completeChains: Chains

    /** The module as imported: both dicts empty. */
    constructor ()
      ensures aaList == [] && completeChains == map[]
    {
      aaList := [];
      completeChains := map[];
    }

    /** get_data: _init_data, _filter_data, _construct_aa_chains, with the
        filter doing what it is meant to. records stand for what
        cmd.iterate reports. */
    method GetData(models: seq<string>, chains: seq<string>, records: seq<Record>) returns (r: Result<Chains, Error>)
      modifies this
      ensures r == Chained(old(completeChains), records, models, chains)
      ensures r.Ok? ==> r.value == completeChains
    {
      InitData(records);
      FilterData(models, chains);
      var err := ConstructAaChains(models, chains);
      if err.Some? {
        return Err(err.value);
      }
      return Ok(completeChains);
    }

    /** _init_data: the record list is replaced; _complete_chains is not
        touched. */
    method InitData(records: seq<Record>)
      modifies this
      ensures aaList == records && completeChains == old(completeChains)
    {
      aaList := records;
    }

    /** _filter_data as written. */
    method FilterDataAsWritten(models: seq<string>, chains: seq<string>) returns (err: Option<Error>)
      modifies this
      ensures completeChains == old(completeChains)
      ensures err.None? <==> FilterAsWritten(old(aaList), 0, |old(aaList)|, models, chains).Ok?
      ensures err.Some? ==> err == Some(IndexError)
      ensures err.None? ==> aaList == FilterAsWritten(old(aaList), 0, |old(aaList)|, models, chains).value
    {
      var n := |aaList|;
      var i := 0;
      while i < n
        invariant i <= n && completeChains == old(completeChains)
        invariant FilterAsWritten(old(aaList), 0, n, models, chains) == FilterAsWritten(aaList, i, n, models, chains)
      {
        if i >= |aaList| {
          return Some(IndexError);
        }
        if aaList[i].model !in models || aaList[i].chain !in chains {
          aaList := aaList[..i] + aaList[i + 1..];
        }
        i := i + 1;
      }
      return None;
    }

    /** _filter_data as meant: exactly the requested records stay, in
        order. */
    method FilterData(models: seq<string>, chains: seq<string>)
      modifies this
      ensures completeChains == old(completeChains)
      ensures aaList == Whitelisted(old(aaList), models, chains)
    {
      var kept: seq<Record> := [];
      var i := 0;
      while i < |aaList|
        invariant i <= |aaList|
        invariant kept == Whitelisted(aaList[..i], models, chains)
      {
        assert aaList[..i + 1][..i] == aaList[..i];
        if aaList[i].model in models && aaList[i].chain in chains {
          kept := kept + [aaList[i]];
        }
        i := i + 1;
      }
      assert aaList[..i] == aaList;
      aaList := kept;
    }

    /** _construct_aa_chains: the records looked up strictly in one_letter,
        the cross product of requested models and chains reset to '', and
        each record's symbol appended to its chain. */
    method ConstructAaChains(models: seq<string>, chains: seq<string>) returns (err: Option<Error>)
      modifies this
      ensures err.None? <==>
        Known(old(aaList), OneLetter) && AppendAll(Reset(old(completeChains), models, chains), TranslatedAll(old(aaList), OneLetter, "")).Ok?
      ensures err.Some? ==> err == Some(KeyError)
      ensures err.None? ==>
        completeChains == AppendAll(Reset(old(completeChains), models, chains), TranslatedAll(old(aaList), OneLetter, "")).value
    {
      err := TranslateList();
      if err.Some? {
        return;
      }
      ResetChains(models, chains);
      err := AppendRecords();
    }

    /** The first loop of _construct_aa_chains: each record's code looked up
        in one_letter, the first unknown one raising KeyError. */
    method TranslateList() returns (err: Option<Error>)
      modifies this
      ensures completeChains == old(completeChains)
      ensures err.None? <==> Known(old(aaList), OneLetter)
      ensures err.Some? ==> err == Some(KeyError)
      ensures err.None? ==> aaList == TranslatedAll(old(aaList), OneLetter, "")
    {
      var k := 0;
      while k < |aaList|
        invariant k <= |aaList| == |old(aaList)| && completeChains == old(completeChains)
        invariant forall n :: 0 <= n < k ==> old(aaList)[n].resn in OneLetter && aaList[n] == Translated(old(aaList)[n], OneLetter, "")
        invariant forall n :: k <= n < |aaList| ==> aaList[n] == old(aaList)[n]
      {
        if aaList[k].resn !in OneLetter {
          assert old(aaList)[k] in old(aaList);
          return Some(KeyError);
        }
        aaList := aaList[k := aaList[k].(resn := OneLetter[aaList[k].resn])];
        k := k + 1;
      }
      assert aaList == TranslatedAll(old(aaList), OneLetter, "");
      return None;
    }

    /** The second loop of _construct_aa_chains. */
    method ResetChains(models: seq<string>, chains: seq<string>)
      modifies this
      ensures aaList == old(aaList)
      ensures completeChains == Reset(old(completeChains), models, chains)
    {
      var i := 0;
      while i < |models|
        invariant i <= |models| && aaList == old(aaList)
        invariant completeChains == Reset(old(completeChains), models[..i], chains)
      {
        var blank: map<string, string> := map[];
        var j := 0;
        while j < |chains|
          invariant j <= |chains| && aaList == old(aaList)
          invariant completeChains == Reset(old(completeChains), models[..i], chains)
          invariant blank == Blank(chains[..j])
        {
          assert chains[..j + 1] == chains[..j] + [chains[j]];
          BlankSnoc(chains[..j], chains[j]);
          blank := blank[chains[j] := ""];
          j := j + 1;
        }
        assert chains[..j] == chains;
        assert models[..i + 1] == models[..i] + [models[i]];
        ResetSnoc(old(completeChains), models[..i], models[i], chains);
        completeChains := completeChains[models[i] := blank];
        i := i + 1;
      }
      assert models[..i] == models;
    }

    /** The third loop of _construct_aa_chains. */
    method AppendRecords() returns (err: Option<Error>)
      modifies this
      ensures aaList == old(aaList)
      ensures err.None? <==> AppendAll(old(completeChains), aaList).Ok?
      ensures err.Some? ==> err == Some(KeyError)
      ensures err.None? ==> completeChains == AppendAll(old(completeChains), aaList).value
    {
      var k := 0;
      while k < |aaList|
        invariant k <= |aaList| && aaList == old(aaList)
        invariant AppendAll(old(completeChains), aaList) == AppendAll(completeChains, aaList[k..])
      {
        var x := aaList[k];
        assert aaList[k..][1..] == aaList[k + 1..];
        if x.model !in completeChains || x.chain !in completeChains[x.model] {
          return Some(KeyError);
        }
        completeChains := AddSymbol(completeChains, x);
        k := k + 1;
      }
      return None;
    }

    /** del_data: the del statements only make the names local, the
        resulting NameError is caught, and both globals stay. */
    method DelData()
      ensures aaList == old(aaList) && completeChains == old(completeChains)
    {
    }
  }
}
