/**
 * Shapes of what the upstream catalog returns: bulk-dump descriptors, card
 * records (each key optional, as in the JSON payload) and the outcome of an
 * image download. Network calls are replaced by these values and by a
 * `Fetcher` that gives the outcome of downloading a URI.
 */
module Scryfall {
  import opened Wrappers
  import opened Models

  datatype ImageUris = ImageUris(
    small: Option<string>, normal: Option<string>, large: Option<string>,
    artCrop: Option<string>, borderCrop: Option<string>)

  /** A record without an `image_uris` object reads every URI as null. */
  const NoImageUris := ImageUris(None, None, None, None, None)

  function UriFor(u: ImageUris, sz: Size): Option<string> {
    match sz
    case Small => u.small
    case Normal => u.normal
    case Large => u.large
  }

  /** One card object of the catalog: `id`, `name`, `set`, ... each possibly absent. */
  datatype RawCard = RawCard(
    id: Option<string>,
    name: Option<string>,
    setCode: Option<string>,
    collectorNumber: Option<string>,
    legalities: Option<Legalities>,
    typeLine: Option<string>,
    imageUris: ImageUris)

  /** One entry of the bulk-data listing: its `type` tag and its `download_uri`. */
  datatype BulkDescriptor = BulkDescriptor(kind: string, downloadUri: string)

  /** An image GET: the response body, or any transport or HTTP-status failure. */
  datatype FetchResult = Fetched(content: Bytes) | FetchFailed

  /**
   * The outcome of downloading each URI during one run: every attempt at a
   * URI within that run gets the same answer. Two runs may use two fetchers.
   */
  type Fetcher = string -> FetchResult
}
