/** The column-resolution prelude every column-parameterised transform runs
    first (`_resolve_columns_with_dataframe`). */
module ColumnResolution {
  import opened Seqs

  /** The columns a transform acts on, given the frame's labels, the requested
      names and the transform's default:
      - nothing requested, or nothing requested is present: the default;
      - some requested names are absent: the present ones, each once
        (Python builds them from a set; the model lists them in frame order);
      - every requested name is present: the request exactly as given. */
  function Resolve(available: seq<string>, requested: seq<string>, default: seq<string>): (r: seq<string>)
    ensures (forall c | c in requested :: c !in available) ==> r == default
    ensures (exists c | c in requested :: c in available) ==>
      && (forall c | c in r :: c in requested && c in available)
      && (forall c | c in requested && c in available :: c in r)
    ensures (exists c | c in requested :: c in available) && (exists c | c in requested :: c !in available) ==>
      Distinct(r)
    ensures |requested| > 0 && (forall c | c in requested :: c in available) ==> r == requested
    ensures (forall c | c in default :: c in available) ==> forall c | c in r :: c in available
  {
    if |requested| == 0 then default
    else if forall c | c in requested :: c !in available then
      assert requested[0] in requested;
      default
    else if exists c | c in requested :: c !in available then
      var wanted := c => c in requested;
      var present := Filter(available, wanted);
      assert forall c | c in available && c in requested :: wanted(c) && c in present;
      assert forall c | c in present :: c in available && wanted(c);
      Unique(present)
    else requested
  }

  /** The present names a resolution selects are exactly the present names
      requested, unless none is present, in which case they are the default's. */
  lemma ResolvePresent(available: seq<string>, requested: seq<string>, default: seq<string>, c: string)
    requires c in available
    ensures var r := Resolve(available, requested, default);
      (exists d | d in requested :: d in available) ==> (c in r <==> c in requested)
  {
  }
}
