/**
 * The metamodel: a registry of datasets with unique identifiers, and the queries
 * that collect datasets and objects across the registered datasets and the datasets
 * nested in them. What a dataset holds is the dataset's own business; the
 * registry reaches it through the dataset's queries, which are parameters here.
 */
module MetaModels {
  import opened Wrappers

  /** A dataset, as far as the registry is concerned: its identifier. */
  class Dataset {
    const id: string

    constructor (identifier: string)
      ensures id == identifier
    {
      id := identifier;
    }
  }

  /** An object held by a dataset. */
  class ModelObject {
  }

  datatype MetaError = NameClash(identifier: string)

  /** Some dataset of `ds` has identifier `identifier`. */
  predicate HasId(ds: seq<Dataset>, identifier: string)
  {
    exists k :: 0 <= k < |ds| && ds[k].id == identifier
  }

  /** No two datasets of `ds` share an identifier. */
  predicate DistinctIds(ds: seq<Dataset>)
  {
    forall i, j :: 0 <= i < j < |ds| ==> ds[i].id != ds[j].id
  }

  // -------------------------------------------------------------------
  // What the queries return

  /**
   * getDatasets(): for each registered dataset in order, the datasets nested in it
   * (its own getDatasets()) followed by the dataset itself.
   */
  function AllDatasets(ds: seq<Dataset>, nested: Dataset -> seq<Dataset>): seq<Dataset>
  {
    if ds == [] then []
    else AllDatasets(ds[..|ds| - 1], nested) + nested(ds[|ds| - 1]) + [ds[|ds| - 1]]
  }

  /** The registered datasets whose `field` has the value `value`, in order. */
  function Matching(ds: seq<Dataset>, get: (Dataset, string) -> string, field: string, value: string): seq<Dataset>
  {
    if ds == [] then []
    else
      var last := ds[|ds| - 1];
      Matching(ds[..|ds| - 1], get, field, value) + (if get(last, field) == value then [last] else [])
  }

  /** Each registered dataset's own getDatasets(field, value), concatenated in order. */
  function NestedMatching(ds: seq<Dataset>, nestedMatching: (Dataset, string, string) -> seq<Dataset>,
                          field: string, value: string): seq<Dataset>
  {
    if ds == [] then []
    else NestedMatching(ds[..|ds| - 1], nestedMatching, field, value) + nestedMatching(ds[|ds| - 1], field, value)
  }

  /** Each registered dataset's getObjects(field, value), concatenated in order. */
  function AllObjects(ds: seq<Dataset>, objects: (Dataset, string, string) -> seq<ModelObject>,
                      field: string, value: string): seq<ModelObject>
  {
    if ds == [] then []
    else AllObjects(ds[..|ds| - 1], objects, field, value) + objects(ds[|ds| - 1], field, value)
  }

  // -------------------------------------------------------------------
  // Properties of the queries

  /** getDatasets() holds exactly the registered datasets and the datasets nested in them. */
  lemma {:induction false} AllDatasetsMembers(ds: seq<Dataset>, nested: Dataset -> seq<Dataset>, x: Dataset)
    ensures x in AllDatasets(ds, nested) <==> x in ds || exists d :: d in ds && x in nested(d)
  {
    if ds != [] {
      var init, last := ds[..|ds| - 1], ds[|ds| - 1];
      assert ds == init + [last];
      AllDatasetsMembers(init, nested, x);
      if exists d :: d in ds && x in nested(d) {
        var d :| d in ds && x in nested(d);
        if d != last {
          assert d in init;
        }
      }
    }
  }

  /** Registering a dataset only appends to getDatasets(): its nested datasets, then itself. */
  lemma AllDatasetsAppend(ds: seq<Dataset>, d: Dataset, nested: Dataset -> seq<Dataset>)
    ensures AllDatasets(ds + [d], nested) == AllDatasets(ds, nested) + nested(d) + [d]
  {
    assert (ds + [d])[..|ds|] == ds;
  }

  /** Without nested datasets, getDatasets() is the registry in insertion order. */
  lemma {:induction false} AllDatasetsFlat(ds: seq<Dataset>, nested: Dataset -> seq<Dataset>)
    requires forall d :: d in ds ==> nested(d) == []
    ensures AllDatasets(ds, nested) == ds
  {
    if ds != [] {
      var init := ds[..|ds| - 1];
      assert forall d :: d in init ==> d in ds;
      AllDatasetsFlat(init, nested);
      assert ds == init + [ds[|ds| - 1]];
    }
  }

  /** The matches among the registered datasets are exactly those whose field has the value, in order. */
  lemma {:induction false} MatchingMembers(ds: seq<Dataset>, get: (Dataset, string) -> string,
                                           field: string, value: string, x: Dataset)
    ensures x in Matching(ds, get, field, value) <==> x in ds && get(x, field) == value
  {
    if ds != [] {
      var init := ds[..|ds| - 1];
      assert ds == init + [ds[|ds| - 1]];
      MatchingMembers(init, get, field, value, x);
    }
  }

  /** There are at most as many matches as registered datasets, and as many exactly when all match. */
  lemma {:induction false} MatchingShorter(ds: seq<Dataset>, get: (Dataset, string) -> string, field: string, value: string)
    ensures |Matching(ds, get, field, value)| <= |ds|
    ensures |Matching(ds, get, field, value)| == |ds| <==> forall d :: d in ds ==> get(d, field) == value
  {
    if ds != [] {
      var init, last := ds[..|ds| - 1], ds[|ds| - 1];
      assert ds == init + [last];
      MatchingShorter(init, get, field, value);
      if forall d :: d in ds ==> get(d, field) == value {
        assert forall d :: d in init ==> d in ds;
      }
    }
  }

  /** getObjects holds exactly the objects some registered dataset returns. */
  lemma {:induction false} AllObjectsMembers(ds: seq<Dataset>, objects: (Dataset, string, string) -> seq<ModelObject>,
                                             field: string, value: string, o: ModelObject)
    ensures o in AllObjects(ds, objects, field, value) <==> exists d :: d in ds && o in objects(d, field, value)
  {
    if ds != [] {
      var init, last := ds[..|ds| - 1], ds[|ds| - 1];
      assert ds == init + [last];
      AllObjectsMembers(init, objects, field, value, o);
      if exists d :: d in ds && o in objects(d, field, value) {
        var d :| d in ds && o in objects(d, field, value);
        if d != last {
          assert d in init;
        }
      }
    }
  }

  // -------------------------------------------------------------------
  // The registry

  /** MetaModel: the registered datasets, in the order they were added. */
  class MetaModel {
    var datasets: seq<Dataset>

    /** The identifiers of the registered datasets are pairwise distinct. */
    ghost predicate Valid()
      reads this
    {
      DistinctIds(datasets)
    }

    constructor ()
      ensures datasets == [] && Valid()
    {
      datasets := [];
    }

    /** clearDatasets: the registry is emptied (the datasets are deleted with it). */
    method ClearDatasets()
      modifies this
      ensures datasets == [] && Valid()
    {
      datasets := [];
    }

    /**
     * addDataset: an identifier already in use is a NameClash and nothing changes;
     * otherwise a new dataset with that identifier is appended and returned.
     */
    method AddDataset(identifier: string) returns (r: Result<Dataset, MetaError>)
      requires Valid()
      modifies this
      ensures Valid()
      ensures HasId(old(datasets), identifier) ==>
        r == Failure(NameClash(identifier)) && datasets == old(datasets)
      ensures !HasId(old(datasets), identifier) ==>
        r.Success? && fresh(r.value) && r.value.id == identifier && datasets == old(datasets) + [r.value]
    {
      var i := 0;
      while i < |datasets|
        invariant 0 <= i <= |datasets|
        invariant forall k :: 0 <= k < i ==> datasets[k].id != identifier
      {
        if identifier == datasets[i].id {
          return Failure(NameClash(identifier));
        }
        i := i + 1;
      }
      var dataset := new Dataset(identifier);
      datasets := datasets + [dataset];
      return Success(dataset);
    }

    /** getDatasets(): every dataset, nested ones before the registered one that holds them. */
    method GetDatasets(nested: Dataset -> seq<Dataset>) returns (r: seq<Dataset>)
      ensures r == AllDatasets(datasets, nested)
    {
      r := [];
      var i := 0;
      while i < |datasets|
        invariant 0 <= i <= |datasets|
        invariant r == AllDatasets(datasets[..i], nested)
      {
        assert datasets[..i + 1][..i] == datasets[..i];
        r := r + nested(datasets[i]) + [datasets[i]];
        i := i + 1;
      }
      assert datasets[..i] == datasets;
    }

    /**
     * getDatasets(field, value): the matching registered datasets, then each
     * registered dataset's nested matches.
     */
    method GetDatasetsBy(get: (Dataset, string) -> string,
                         nestedMatching: (Dataset, string, string) -> seq<Dataset>,
                         field: string, value: string) returns (r: seq<Dataset>)
      ensures r == Matching(datasets, get, field, value) + NestedMatching(datasets, nestedMatching, field, value)
    {
      r := [];
      var i := 0;
      while i < |datasets|
        invariant 0 <= i <= |datasets|
        invariant r == Matching(datasets[..i], get, field, value)
      {
        assert datasets[..i + 1][..i] == datasets[..i];
        if get(datasets[i], field) == value {
          r := r + [datasets[i]];
        }
        i := i + 1;
      }
      assert datasets[..i] == datasets;
      ghost var top := r;
      var j := 0;
      while j < |datasets|
        invariant 0 <= j <= |datasets|
        invariant r == top + NestedMatching(datasets[..j], nestedMatching, field, value)
      {
        assert datasets[..j + 1][..j] == datasets[..j];
        r := r + nestedMatching(datasets[j], field, value);
        j := j + 1;
      }
      assert datasets[..j] == datasets;
    }

    /** getObjects(field, value): every registered dataset's matching objects, in order. */
    method GetObjects(objects: (Dataset, string, string) -> seq<ModelObject>, field: string, value: string)
      returns (r: seq<ModelObject>)
      ensures r == AllObjects(datasets, objects, field, value)
    {
      r := [];
      var i := 0;
      while i < |datasets|
        invariant 0 <= i <= |datasets|
        invariant r == AllObjects(datasets[..i], objects, field, value)
      {
        assert datasets[..i + 1][..i] == datasets[..i];
        r := r + objects(datasets[i], field, value);
        i := i + 1;
      }
      assert datasets[..i] == datasets;
    }
  }
}
