/** An abstract model of Android's `MediaFormat`: the MIME type of a track and
    its integer-valued keys. Only the keys the core reads are named here. */
module MediaFormat {
  import opened JavaInt

  const KEY_ROTATION: string := "rotation-degrees"
  const KEY_BIT_RATE: string := "bitrate"
  const KEY_CHANNEL_COUNT: string := "channel-count"
  const KEY_MAX_INPUT_SIZE: string := "max-input-size"
  const KEY_SAMPLE_RATE: string := "sample-rate"

  /** A track format: `getString(KEY_MIME)` is `mime`, and `containsKey(k)` /
      `getInteger(k)` consult `ints`. */
  datatype Format = Format(mime: string, ints: map<string, Int32>)

  /** `setInteger(key, value)`. */
  function SetInteger(f: Format, key: string, value: Int32): (g: Format)
    ensures key in g.ints && g.ints[key] == value
    ensures g.mime == f.mime
    ensures forall k :: k != key ==> (k in g.ints <==> k in f.ints)
    ensures forall k :: k != key && k in f.ints ==> g.ints[k] == f.ints[k]
  {
    f.(ints := f.ints[key := value])
  }

  /** `removeKey(key)`. */
  function RemoveKey(f: Format, key: string): (g: Format)
    ensures key !in g.ints
    ensures g.mime == f.mime
    ensures forall k :: k != key ==> (k in g.ints <==> k in f.ints)
    ensures forall k :: k != key && k in f.ints ==> g.ints[k] == f.ints[k]
  {
    f.(ints := f.ints - {key})
  }
}
