/**
 What `LoadResult.Listing` means, stated entry by entry over the positions of the file: which external
 ids are listed, which entry each column comes from, and which text each parameter shows.
 */
module ListingMeaning {
  import opened Prelude
  import opened Programs
  import opened PriceView
  import opened LoadSuccess
  import opened LoadResult

  /** The k-th good is complete and carries this external id. */
  ghost predicate Lists(gs: seq<Good>, k: int, ext: int) {
    0 <= k < |gs| && Complete(gs[k]) && gs[k].id.value == ext
  }

  /** The j-th parameter sets this name. */
  ghost predicate Sets(ps: seq<(string, Scalar)>, j: int, name: string) {
    0 <= j < |ps| && name != "" && ps[j].0 == name && ps[j].1.Truthy()
  }

  /** The j-th parameter of the k-th good sets this name for this external id. */
  ghost predicate Mentions(gs: seq<Good>, k: int, j: int, ext: int, name: string) {
    Lists(gs, k, ext) && Sets(OrEmpty(gs[k].parameters), j, name)
  }

  predicate Later(k: int, j: int, k': int, j': int) {
    k < k' || (k == k' && j < j')
  }

  lemma {:induction false} MergeKeeps(m: imap<string, string>, ps: seq<(string, Scalar)>, name: string)
    requires forall j :: !Sets(ps, j, name)
    ensures name in MergeParameters(m, ps) <==> name in m
    ensures name in m ==> MergeParameters(m, ps)[name] == m[name]
    decreases |ps|
  {
    if ps != [] {
      assert !Sets(ps, 0, name);
      var m' := if ps[0].0 != "" && ps[0].1.Truthy() then m[ps[0].0 := ps[0].1.text] else m;
      forall j ensures !Sets(ps[1..], j, name) { assert Sets(ps[1..], j, name) ==> Sets(ps, j + 1, name); }
      MergeKeeps(m', ps[1..], name);
    }
  }

  lemma {:induction false} MergeLast(m: imap<string, string>, ps: seq<(string, Scalar)>, j: int, name: string)
    requires Sets(ps, j, name) && forall i | j < i :: !Sets(ps, i, name)
    ensures name in MergeParameters(m, ps) && MergeParameters(m, ps)[name] == ps[j].1.text
    decreases |ps|
  {
    var m' := if ps[0].0 != "" && ps[0].1.Truthy() then m[ps[0].0 := ps[0].1.text] else m;
    forall i | j - 1 < i ensures !Sets(ps[1..], i, name) { assert Sets(ps[1..], i, name) ==> Sets(ps, i + 1, name); }
    if j == 0 {
      forall i ensures !Sets(ps[1..], i, name) {}
      MergeKeeps(m', ps[1..], name);
    } else {
      MergeLast(m', ps[1..], j - 1, name);
    }
  }

  lemma PrefixLists(gs: seq<Good>, k: int, ext: int)
    requires gs != [] && k < |gs| - 1
    ensures Lists(gs[..|gs|-1], k, ext) <==> Lists(gs, k, ext)
  {}

  /** A shop lists exactly the external ids of the file's complete goods. */
  lemma {:induction false} ListedIds(gs: seq<Good>, ext: int)
    requires AllSound(gs)
    ensures ext in Listing(gs) <==> exists k :: Lists(gs, k, ext)
    decreases |gs|
  {
    if gs != [] {
      var m := |gs| - 1;
      var init := gs[..m];
      assert forall k :: 0 <= k < m ==> init[k] == gs[k];
      ListedIds(init, ext);
      forall k | k < m { PrefixLists(gs, k, ext); }
      if k :| Lists(init, k, ext) { assert Lists(gs, k, ext); }
      if Lists(gs, m, ext) {}
      if k :| Lists(gs, k, ext) { assert k == m || Lists(init, k, ext); }
      assert Complete(gs[m]) ==> Sound(gs[m]);
    }
  }

  /** Every column comes from the last complete entry with that id. */
  lemma {:induction false} ListedColumns(gs: seq<Good>, k: int, ext: int)
    requires AllSound(gs) && Lists(gs, k, ext) && forall i | k < i :: !Lists(gs, i, ext)
    ensures ext in Listing(gs)
    ensures var o, g := Listing(gs)[ext], gs[k];
      && o.product == g.name.value && Some(o.model) == g.model.GetOr("") && o.price == g.price.value
      && Given(o.rrc) == g.rrc && o.quantity == g.quantity.value
    decreases |gs|
  {
    var m := |gs| - 1;
    assert Complete(gs[k]) ==> Sound(gs[k]);
    if k < m {
      var init := gs[..m];
      assert forall i :: 0 <= i < m ==> init[i] == gs[i];
      assert Lists(init, k, ext);
      forall i | k < i ensures !Lists(init, i, ext) { assert Lists(init, i, ext) ==> Lists(gs, i, ext); }
      ListedColumns(init, k, ext);
      assert !Lists(gs, m, ext);
    }
  }

  ghost function ListedTexts(gs: seq<Good>, ext: int): imap<string, string> {
    if ext in Listing(gs) then Listing(gs)[ext].parameters else NO_PARAMETERS
  }

  lemma TextsStep(gs: seq<Good>, ext: int)
    requires gs != [] && AllSound(gs)
    ensures var m := |gs| - 1;
      ListedTexts(gs, ext) ==
        if Lists(gs, m, ext) then MergeParameters(ListedTexts(gs[..m], ext), OrEmpty(gs[m].parameters))
        else ListedTexts(gs[..m], ext)
  {
    assert Complete(gs[|gs|-1]) ==> Sound(gs[|gs|-1]);
  }

  /** A parameter is shown only if some complete entry with that id sets it ... */
  lemma {:induction false} UnsetText(gs: seq<Good>, ext: int, name: string)
    requires AllSound(gs) && forall k, j :: !Mentions(gs, k, j, ext, name)
    ensures name !in ListedTexts(gs, ext)
    decreases |gs|
  {
    if gs != [] {
      var m := |gs| - 1;
      assert forall i :: 0 <= i < m ==> gs[..m][i] == gs[i];
      forall k, j ensures !Mentions(gs[..m], k, j, ext, name) {
        assert Mentions(gs[..m], k, j, ext, name) ==> Mentions(gs, k, j, ext, name);
      }
      UnsetText(gs[..m], ext, name);
      TextsStep(gs, ext);
      if Lists(gs, m, ext) {
        forall j ensures !Sets(OrEmpty(gs[m].parameters), j, name) { assert !Mentions(gs, m, j, ext, name); }
        MergeKeeps(ListedTexts(gs[..m], ext), OrEmpty(gs[m].parameters), name);
      }
    }
  }

  /** ... and then with the text of the last mention, over all complete entries with that id. */
  lemma {:induction false} LastText(gs: seq<Good>, k: int, j: int, ext: int, name: string)
    requires AllSound(gs) && Mentions(gs, k, j, ext, name)
    requires forall k', j' | Later(k, j, k', j') :: !Mentions(gs, k', j', ext, name)
    ensures name in ListedTexts(gs, ext) && ListedTexts(gs, ext)[name] == OrEmpty(gs[k].parameters)[j].1.text
    decreases |gs|
  {
    var m := |gs| - 1;
    var init := gs[..m];
    assert forall i :: 0 <= i < m ==> init[i] == gs[i];
    TextsStep(gs, ext);
    if k == m {
      forall i | j < i ensures !Sets(OrEmpty(gs[m].parameters), i, name) {
        assert Later(k, j, m, i) && !Mentions(gs, m, i, ext, name);
      }
      MergeLast(ListedTexts(init, ext), OrEmpty(gs[m].parameters), j, name);
    } else {
      assert Mentions(init, k, j, ext, name);
      forall k', j' | Later(k, j, k', j') ensures !Mentions(init, k', j', ext, name) {
        assert Mentions(init, k', j', ext, name) ==> Mentions(gs, k', j', ext, name);
      }
      LastText(init, k, j, ext, name);
      if Lists(gs, m, ext) {
        forall i ensures !Sets(OrEmpty(gs[m].parameters), i, name) {
          assert Later(k, j, m, i) && !Mentions(gs, m, i, ext, name);
        }
        MergeKeeps(ListedTexts(init, ext), OrEmpty(gs[m].parameters), name);
      }
    }
  }
}
