/** The record values that pass between metadata, reconciler and provider. */
module Records {

  /** A provider record set: one name, one type, its values and its TTL. */
  datatype DnsRecord = DnsRecord(fqdn: string, records: seq<string>, rtype: string, ttl: int)

  /** A wanted record together with the service and stack it belongs to. */
  datatype MetadataDnsRecord = MetadataDnsRecord(serviceName: string, stackName: string, record: DnsRecord)

  /** The records metadata asks for, by name. */
  type Desired = map<string, MetadataDnsRecord>

  function ValueSet(values: seq<string>): set<string> {
    set v | v in values
  }

  function RecordsOf(d: Desired): map<string, DnsRecord> {
    map n | n in d :: d[n].record
  }

  function TypesOf(recs: map<string, DnsRecord>): map<string, string> {
    map n | n in recs :: recs[n].rtype
  }
}
