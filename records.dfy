/** The position record that the extractor builds, the store keeps and the summary reads. */
module Records {
  import opened Common

  /** A sender key: the text of `meta/sender`, which is None for an element without text. */
  type SenderId = Option<string>

  /** One observed fix. A field the source leaves out of its dictionary is None here. */
  datatype Record = Record(
    sender: SenderId,
    senderType: Option<string>,
    lat: real,
    lng: real,
    timestamp: Option<string>,
    protocol: Option<string>,
    altitude: Option<real>,
    speed: Option<real>,
    course: Option<real>,
    gpsTime: Option<string>,
    fixType: Option<string>,
    satellites: Option<int>,
    emergency: Option<bool>)

  /** Latitude within [-90, 90] and longitude within [-180, 180], bounds included. */
  predicate ValidCoordinates(lat: real, lng: real) {
    -90.0 <= lat <= 90.0 && -180.0 <= lng <= 180.0
  }
}
