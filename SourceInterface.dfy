/**
 * The capability contract every subtitle site implements
 * (api/sources/SourceInterface.ts), with the results it produces.
 *
 * An adapter is a value: its network-backed `search` and `download` are
 * given as functions from their argument to the outcome that the call
 * would produce, so that the aggregation logic around them is pure.
 */
module SourceInterface {
  import opened Wrappers

  /** One byte of a downloaded archive. */
  type byte = b: int | 0 <= b < 256

  /** A search hit, `{ title, url, source }`. */
  datatype Item = Item(title: string, url: string, source: string)

  /** What `download` resolves to: `{ content, filename, size }`. */
  datatype Payload = Payload(content: seq<byte>, filename: string, size: nat)

  /**
   * `getName()`, `isAvailable()`, and the outcome of `search(query)` and
   * `download(url)` for each possible argument.
   */
  datatype Adapter = Adapter(
    name: string,
    available: bool,
    search: string -> Result<seq<Item>>,
    download: string -> Result<Payload>)
}
