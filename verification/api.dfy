/**
 The shapes of the BGP engine's API that the adapter builds and reads: path
 attributes (each wrapped, in the engine's API, in a message tagged by a type
 URL), NLRI, address family, table type, the path-mutating calls and the
 destinations a table listing returns.
 */
module Api {
  import opened Common

  /** ORIGIN value IGP (section 5.1.1 of RFC 4271). */
  const ORIGIN_IGP: uint32 := 0

  /** AS_PATH segment type AS_SEQUENCE (section 4.3 of RFC 4271). */
  const AS_SEQUENCE: uint32 := 2

  const ORIGIN_TYPE_URL: string := "type.googleapis.com/gobgpapi.OriginAttribute"
  const NEXT_HOP_TYPE_URL: string := "type.googleapis.com/gobgpapi.NextHopAttribute"
  const AS_PATH_TYPE_URL: string := "type.googleapis.com/gobgpapi.AsPathAttribute"

  /** The three type URLs differ (right after the common "type.googleapis.com/gobgpapi." prefix). */
  lemma TypeUrlsDistinct()
    ensures ORIGIN_TYPE_URL != NEXT_HOP_TYPE_URL
    ensures ORIGIN_TYPE_URL != AS_PATH_TYPE_URL
    ensures NEXT_HOP_TYPE_URL != AS_PATH_TYPE_URL
  {
    assert ORIGIN_TYPE_URL[29] == 'O' && NEXT_HOP_TYPE_URL[29] == 'N' && AS_PATH_TYPE_URL[29] == 'A';
  }

  /** One AS_PATH segment: its type and its AS numbers, in order. */
  datatype AsSegment = AsSegment(segmentType: uint32, numbers: seq<uint32>)

  /**
   A path attribute as carried in the engine's API. `Opaque` is any attribute
   this model does not decode: one of another kind, or one whose payload does
   not unmarshal as the message its type URL names; only its type URL is kept.
   */
  datatype Attribute =
    | Origin(origin: uint32)
    | NextHop(nextHop: string)
    | AsPath(segments: seq<AsSegment>)
    | Opaque(typeUrl: string)

  /** The type URL the attribute's wrapper carries. */
  function TypeUrl(a: Attribute): string {
    match a
    case Origin(_) => ORIGIN_TYPE_URL
    case NextHop(_) => NEXT_HOP_TYPE_URL
    case AsPath(_) => AS_PATH_TYPE_URL
    case Opaque(url) => url
  }

  /** Network Layer Reachability Information: a network and its prefix length. */
  datatype Nlri = Nlri(prefix: string, prefixLen: uint32)

  datatype Afi = AfiIp | AfiIp6
  datatype Safi = SafiUnicast | SafiMulticast
  datatype Family = Family(afi: Afi, safi: Safi)

  const IPV4_UNICAST: Family := Family(AfiIp, SafiUnicast)

  datatype TableType = Global | Local | AdjIn | AdjOut

  /** A path submitted to the engine. */
  datatype Path = Path(family: Family, nlri: Nlri, pattrs: seq<Attribute>)

  /** The engine call an update makes; the engine's answer is an input of the model. */
  datatype EngineCall =
    | AddPath(table: TableType, path: Path)
    | DeletePath(table: TableType, path: Path)

  /** A path as a table listing reports it: its age in seconds and its attributes. */
  datatype ListedPath = ListedPath(ageSeconds: int, pattrs: seq<Attribute>)

  /** One destination of a table listing: a prefix and the paths towards it. */
  datatype Destination = Destination(prefix: string, paths: seq<ListedPath>)
}
