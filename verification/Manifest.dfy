/** Resource kinds and the typed manifest document, after validation. */
module Manifest {
  import opened Wrappers
  import opened MurlScheme
  import opened MurlRoundTrip

  // The kind of a resource. A nested mURL carries its target already parsed:
  // validation refuses a manifest in which that parse fails.
  datatype Kind =
    | Https
    | File
    | Dir
    | Nested(child: Murl)
    | Terminal
    | Ssh
    | RemoteDesktop
    | Geo
    | Mailto
    | Custom(name: string)
  {
    predicate IsFilesystem() {
      File? || Dir? || Terminal?
    }
  }

  datatype Resource = Resource(
    id: string,
    kind: Kind,
    target: string,
    role: Option<string>,
    required: bool,
    order: int,
    dependsOn: seq<string>,
    tags: seq<string>,
    integrity: Option<string>)

  predicate DistinctIds(rs: seq<Resource>) {
    forall i, j :: 0 <= i < j < |rs| ==> rs[i].id != rs[j].id
  }

  // A decoded manifest. `id` is the declared identity, parsed; `keyId` is the
  // key of a verified signature; the validity window is in epoch seconds.
  datatype Doc = Doc(
    name: string,
    id: Option<Murl>,
    resources: seq<Resource>,
    keyId: Option<string>,
    notBefore: Option<nat>,
    expires: Option<nat>,
    warnings: seq<string>)
  {
    predicate UniqueIds() {
      DistinctIds(resources)
    }

    // What validation guarantees and the resolver relies on.
    predicate WellFormed() {
      && UniqueIds()
      && (id.Some? ==> Valid(id.value))
      && forall i :: 0 <= i < |resources| && resources[i].kind.Nested? ==> Valid(resources[i].kind.child)
    }
  }
}
