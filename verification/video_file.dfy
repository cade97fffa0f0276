/** The transient listing record the browser shows: one row per
    directory or recognised video file. */
module VideoFiles {
  import opened Wrappers

  /** `duration` is the best-effort probe in milliseconds; `None` when the
      probe failed or the row is a directory. */
  datatype VideoFile = VideoFile(
    path: string,
    name: string,
    size: int,
    duration: Option<int>,
    lastModified: int,
    isDirectory: bool
  )
}
