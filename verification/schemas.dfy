/**
 * Record shapes shared by the server and the client: the `configs`, `logs` and `audits`
 * tables and the `ConfigUpdate` request body. They carry no behaviour.
 */
module Schemas {

  /** One link and its trigger phrases: `LinkConfig` in the console, `ConfigUpdate` on the server. */
  datatype LinkConfig = LinkConfig(id: int, keywords: seq<string>)

  /**
   * A row of the `configs` table. The table stores `keywords` as JSON text; the model keeps the
   * decoded list, taking `json.loads(json.dumps(ks)) == ks` for granted.
   */
  datatype ConfigRow = ConfigRow(userId: int, linkId: int, keywords: seq<string>)

  /** The `type` column of the `logs` table. */
  datatype LogType = Info | Success | Warning | Error

  /** A row of the `logs` table; the formatted `message` and JSON `details` are kept as their parts. */
  datatype LogRow = LogRow(userId: int, logType: LogType, keyword: string, linkId: int, text: string)

  /** Clock readings are opaque to the model. */
  type Timestamp = int

  /** A row of the `audits` table. */
  datatype AuditRow = AuditRow(userId: int, action: string, details: string, ipAddress: string, timestamp: Timestamp)
}
