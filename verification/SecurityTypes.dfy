// Vocabulary shared by the replay guard, the audit chain and the audit store.
module SecurityTypes {

  datatype Role = Admin | Operator | Readonly

  datatype Resource =
    | Telemetry
    | ControlCommand
    | FileTransfer
    | Configuration
    | Upgrade
    | AppControl
    | SecurityPolicy

  datatype Action = Read | Execute | Write | Manage

  datatype Decision = Allow | Deny

  datatype SecurityError = ReplayDetected | TimestampOutOfWindow

  datatype Principal = Principal(tenantId: string, deviceId: string, subject: string, role: Role)

  // An instant: signed nanoseconds relative to the Unix epoch.
  type Instant = int
}
