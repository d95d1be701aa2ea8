/**
 * The forwarder's configuration record and its defaults.  How the record is
 * read from config.json is not part of this model.
 */
module Config {
  import opened Common

  datatype PortRange = PortRange(start: int, end: int)

  /** One declared mapping; `internalIp` is optional and means 127.0.0.1 when absent. */
  datatype Mapping = Mapping(
    disabled: bool,
    protocol: string,
    internalIp: Option<string>,
    internalPort: int,
    portOffset: int)

  datatype Configuration = Configuration(
    portRange: PortRange,
    autoPort: bool,
    mappings: seq<Mapping>,
    allowLocalhostConnections: bool,
    allowExternalConnectionsFromOwnIp: bool,
    allowNotExplicitDenied: bool,
    allowlist: seq<string>,
    denylist: seq<string>)

  /**
   * `Configuration.Defaults`: every field is reset except `autoPort`, which the
   * source leaves as it was.
   */
  function Defaults(c: Configuration): Configuration
  {
    c.(allowExternalConnectionsFromOwnIp := true,
       allowLocalhostConnections := false,
       allowNotExplicitDenied := false,
       allowlist := [],
       denylist := [],
       mappings := [],
       portRange := PortRange(54000, 54099))
  }
}
