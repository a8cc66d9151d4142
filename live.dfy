/**
 * The live state the exams read: the process environment (`os.LookupEnv`)
 * and the filesystem (`os.Stat`, `os.ReadDir`), both as immutable snapshots.
 */
module Live {

  /** The process environment: a variable is set iff it is a key. */
  type Env = map<string, string>

  /** What `os.Stat` says a path is (after following symbolic links). */
  datatype EntryKind = Regular | Directory | OtherKind

  /** What `os.ReadDir` gives for a path: its entry count or an error text. */
  datatype Listing = Entries(count: nat) | ListError(message: string)

  /** One existing path: its kind, its size in bytes and its listing. */
  datatype Entry = Entry(kind: EntryKind, size: nat, listing: Listing)

  /** The filesystem: `os.Stat(p)` succeeds iff `p` is a key. */
  type FileSystem = map<string, Entry>

  /** The text of the error `os.Stat` returns for a path that is not there. */
  function StatError(path: string): string
  {
    "stat " + path + ": no such file or directory"
  }

  /** Go's `%v` of the error `os.Stat(path)` returned: `<nil>` on success. */
  function StatErrorText(fs: FileSystem, path: string): string
  {
    if path in fs then "<nil>" else StatError(path)
  }
}
