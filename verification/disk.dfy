/** The upload directory as a set of file paths plus the set of per-folder
    directories `uploads/<folderId>` that exist. */
module Disk {

  datatype FilePath =
    | Temp(path: string)                 // where the upload middleware left a file
    | InFolder(folderId: nat, name: string)  // uploads/<folderId>/<name>
    | AtRoot(name: string)               // uploads/<name>

  datatype Disk = Disk(files: set<FilePath>, dirs: set<nat>)

  /** `fs.readdir(uploads/<folderId>)` would list nothing. */
  predicate DirEmpty(d: Disk, folderId: nat) {
    forall p :: p in d.files ==> !(p.InFolder? && p.folderId == folderId)
  }

  /** Best-effort `fs.unlink`: a missing file is not an error. */
  function Unlink(d: Disk, p: FilePath): (r: Disk)
    ensures p !in r.files
    ensures forall q :: q != p ==> (q in r.files <==> q in d.files)
    ensures r.dirs == d.dirs
  {
    d.(files := d.files - {p})
  }

  /** Writes (or overwrites) a file. */
  function Put(d: Disk, p: FilePath): (r: Disk)
    ensures p in r.files
    ensures forall q :: q != p ==> (q in r.files <==> q in d.files)
    ensures r.dirs == d.dirs
  {
    d.(files := d.files + {p})
  }

  /** Replacing one file by three. */
  lemma PutThreeFiles(d: Disk, gone: FilePath, a: FilePath, b: FilePath, c: FilePath)
    ensures Put(Put(Put(Unlink(d, gone), a), b), c).files == d.files - {gone} + {a, b, c}
  {
  }
}
