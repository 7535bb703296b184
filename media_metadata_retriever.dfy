/** An abstract model of Android's `MediaMetadataRetriever`. Opening a data
    source is I/O: the caller passes in what opening yields (`None` when
    `setDataSource` throws). */
module MediaMetadataRetriever {
  import opened Wrappers

  datatype MetadataKey = KeyDuration | KeyVideoWidth | KeyVideoHeight

  /** The metadata strings a container carries; an absent key reads as `null`. */
  type Metadata = map<MetadataKey, string>

  class Retriever {
    var source: Option<Metadata>
    /** The number of `release()` calls. */
    ghost var released: nat

    constructor ()
      ensures source == None && released == 0
    {
      source := None;
      released := 0;
    }

    /** `setDataSource(...)`: `ok` is false where the platform throws. */
    method SetDataSource(outcome: Option<Metadata>) returns (ok: bool)
      requires released == 0
      modifies this
      ensures ok <==> outcome.Some?
      ensures source == outcome && released == 0
    {
      source := outcome;
      ok := outcome.Some?;
    }

    /** `extractMetadata(key)`: `None` for `null`. */
    method ExtractMetadata(key: MetadataKey) returns (value: Option<string>)
      requires released == 0 && source.Some?
      ensures value.Some? <==> key in source.value
      ensures value.Some? ==> value.value == source.value[key]
    {
      value := if key in source.value then Some(source.value[key]) else None;
    }

    /** `release()`. */
    method Release()
      modifies this
      ensures released == old(released) + 1 && source == old(source)
    {
      released := released + 1;
    }
  }
}
