/** What the tool reports for a product (src/output.rs): each region's version name split into
    the version and the build, and the fetch that collects the products. */
module Output {
  import opened Wrappers
  import opened RustStr
  import opened Versions

  /** The errors of the report. */
  datatype OutputError = UnparseableVersion(versionsName: string)

  /** A region's version: the version name up to its last `.`, and the build after it. */
  datatype Version = Version(region: string, version: string, build: string)

  /** `Version::try_from(&VersionsRecord)`: the version name is cut at its last `.`; without
      one, the name is the error. */
  function VersionFrom(rec: VersionsRecord): (r: Result<Version, OutputError>)
    ensures r.Err? <==> '.' !in rec.versionsName
    ensures r.Err? ==> r.error == UnparseableVersion(rec.versionsName)
    ensures r.Ok? ==>
              && r.value.region == rec.region
              && r.value.version + "." + r.value.build == rec.versionsName
              && '.' !in r.value.build
  {
    match RSplitOnce(rec.versionsName, '.')
    case None => Err(UnparseableVersion(rec.versionsName))
    case Some((version, build)) => Ok(Version(rec.region, version, build))
  }

  /** The cut is the only one with no `.` in the build: any version and dot-free build joined
      by a `.` come back apart. */
  lemma {:induction false} VersionSplitUnique(rec: VersionsRecord, version: string, build: string)
    requires rec.versionsName == version + "." + build && '.' !in build
    ensures VersionFrom(rec) == Ok(Version(rec.region, version, build))
  {
    RSplitOnceAt(version, '.', build);
  }

  /** A product of the report: its name and one version per region. */
  datatype Product = Product(name: string, versions: seq<Version>)

  /** `Product::from_versions_response`: every row of the response gives a version, in order.
      The source unwraps the result, so a row without a `.` in its version name panics; the
      model returns the error the panic carries. */
  function FromVersionsResponse(name: string, response: Versions.Response): (r: Result<Product, OutputError>)
    ensures r.Ok? <==> forall i :: 0 <= i < |response.records| ==> '.' in response.records[i].versionsName
    ensures r.Ok? ==>
              && r.value.name == name && |r.value.versions| == |response.records|
              && forall i :: 0 <= i < |response.records| ==> VersionFrom(response.records[i]) == Ok(r.value.versions[i])
    ensures r.Err? ==>
              exists i :: 0 <= i < |response.records| && '.' !in response.records[i].versionsName
                && r.error == UnparseableVersion(response.records[i].versionsName)
                && forall j :: 0 <= j < i ==> '.' in response.records[j].versionsName
  {
    var versions :- MapAll(response.records, VersionFrom);
    Ok(Product(name, versions))
  }

  /** The result of one run (`VersionsFetch`): when it was taken, and the products in the order
      they were added. The time is a reading of the clock, passed in. */
  class VersionsFetch {
    var retrievalTime: int
    var products: seq<Product>

    /** `VersionsFetch::new`: no products yet. */
    constructor (now: int)
      ensures retrievalTime == now && products == []
    {
      retrievalTime := now;
      products := [];
    }

    /** `VersionsFetch::add_product`: the product goes at the end. */
    method AddProduct(product: Product)
      modifies this
      ensures products == old(products) + [product]
      ensures retrievalTime == old(retrievalTime)
    {
      products := products + [product];
    }
  }
}
