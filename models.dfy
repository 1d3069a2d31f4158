/**
 * The records of models/dnsbl.py and the two wrappers the rest of the model
 * uses for absent values and for Python exceptions.
 */
module Models {

  datatype Option<T> = None | Some(value: T)

  /** A value, or the message of the exception that was raised instead. */
  datatype Result<T> = Ok(value: T) | Err(error: string)

  /**
   * DNSBLService: one entry of the service registry. `zone` is the source's
   * `dnsbl` field, the DNS suffix the service answers under.
   */
  datatype Service = Service(
    name: string,
    zone: string,
    description: string,
    category: string,
    special: bool)

  /** DNSBLResult: what one service says about the target. */
  datatype DnsblResult = DnsblResult(
    listName: string,
    description: string,
    category: string,
    status: string,
    details: string)
}
