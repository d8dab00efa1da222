/** The records the program produces: one per matching file, one per
    distinct content hash, and the top-level report. */
module Records {

  /** One physical file that passed the type filter. `md5Sum` keeps the
      source's field name although it holds the SHA-1 digest. */
  datatype FileInstance = FileInstance(
    fileType: string,
    filePath: string,
    fileSize: int,
    fileModTime: int,
    md5Sum: string)

  /** A duplicate set: every instance whose digest is `md5Sum`. */
  datatype FileInfo = FileInfo(md5Sum: string, instances: seq<FileInstance>)

  /** The `.list.json` report. */
  datatype FileList = FileList(
    dateMade: int,
    dirPath: string,
    fileTypes: seq<string>,
    files: seq<FileInfo>)

  /** A report stamped `now` for `dirPath`, holding no files yet. */
  function NewFileList(now: int, dirPath: string, fileTypes: seq<string>): FileList
  {
    FileList(now, dirPath, fileTypes, [])
  }
}
