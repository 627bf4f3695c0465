/**
 * The values the core receives from outside: the `Email` snapshot the search
 * builds, the user's `ProcessSettings`, and the local filesystem the
 * attachments and backups are written to.
 */
module Model {

  import opened Wrappers

  /** The store-assigned message id (Gmail's `id`), opaque to the core. */
  type MessageId = nat

  datatype Email = Email(
    gmailId: MessageId,
    uniqueId: Option<string>,          // the Message-ID header, null when absent
    labelIds: Option<seq<string>>,
    from: Option<string>,
    to: Option<string>,
    subject: Option<string>,
    timestamp: int,                    // internalDate, milliseconds since the epoch
    sizeEstimate: int,
    attachments: seq<string>)

  /**
   * What `ProcessOption` answers: its four predicates and the two label ids,
   * each of which may be unset (null).
   */
  datatype ProcessOption = ProcessOption(
    shouldBackup: bool,
    shouldDownload: bool,
    shouldRemove: bool,
    shouldDeleteOriginal: bool,
    downloadedLabelId: Option<string>,
    removedLabelId: Option<string>)

  datatype ProcessSettings = ProcessSettings(
    processOption: ProcessOption,
    targetDirectory: string,           // the directory's absolute path
    addMetadata: bool)

  /** One file written under the target directory. */
  datatype FileWrite =
    | AttachmentFile(path: string, lastModified: int)   // an attachment's bytes, timestamped as the email
    | BackupFile(directory: string, gmailId: MessageId)  // `<directory>/<gmailId>.eml`, the untouched message

  /** `Path.of(directory, name)`. */
  function PathOf(directory: string, name: string): string {
    directory + "/" + name
  }

  /** The local filesystem, as the log of the files written to it, oldest first. */
  class FileSystem {
    var written: seq<FileWrite>

    constructor ()
      ensures written == []
    {
      written := [];
    }

    method Write(f: FileWrite)
      modifies this
      ensures written == old(written) + [f]
    {
      written := written + [f];
    }
  }
}
