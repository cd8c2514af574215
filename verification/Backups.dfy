// The backup catalog record (catalog.go); how it is read from backup.info is not modelled.
module Backups {
  import opened Results
  import Evidence

  /** What the record only passes on to the public contract. */
  datatype BackupNotes = BackupNotes(
    status: string, kind: string, beginLsn: string, beginAt: Time, compression: string, encryption: string)

  datatype Backup = Backup(
    server: string, id: string, systemId: string, state: Evidence.State,
    beginWal: string, endWal: string, endLsn: string,
    segmentSize: int, postgresVersion: int, timeline: U32, endAt: Time, notes: BackupNotes)

  const NO_NOTES := BackupNotes("", "", "", 0, "", "")
}
