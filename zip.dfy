/** `getFromZip`: one member of an archive, looked up in the result of an
    abstract unzip. */
module Zip {
  import opened Wrappers
  import opened Runtime

  /** The two kinds of source `getFromZip` accepts. A `Uint8Array` is used as
      it is; an `ArrayBuffer` is wrapped in a `Uint8Array` view of the same bytes. */
  datatype ByteSource = Uint8Array(bytes: Bytes) | ArrayBuffer(bytes: Bytes)

  function NotFound(target: string): Exception {
    Exception(Some("'" + target + "' not found in zip"))
  }

  /** The member stored under exactly `target`. A present member is returned
      whatever its contents, the empty one included (a `Uint8Array` is truthy);
      only a missing key fails, with the not-found message. */
  function GetFromZip(source: ByteSource, target: string, unzip: Bytes -> Result<map<string, Bytes>, Exception>): (r: Result<Bytes, Exception>)
    ensures unzip(source.bytes).Failure? ==> r == Failure(unzip(source.bytes).error)
    ensures unzip(source.bytes).Success? && target in unzip(source.bytes).value ==>
              r == Success(unzip(source.bytes).value[target])
    ensures unzip(source.bytes).Success? && target !in unzip(source.bytes).value ==>
              r == Failure(NotFound(target))
  {
    var bytes := match source
      case Uint8Array(b) => b
      case ArrayBuffer(b) => b;
    var files :- unzip(bytes);
    if target !in files then Failure(NotFound(target)) else Success(files[target])
  }

  /** Equal bytes give an equal result, whichever kind of source holds them. */
  lemma GetFromZipIgnoresSourceKind(b: Bytes, target: string, unzip: Bytes -> Result<map<string, Bytes>, Exception>)
    ensures GetFromZip(Uint8Array(b), target, unzip) == GetFromZip(ArrayBuffer(b), target, unzip)
  {
  }
}
