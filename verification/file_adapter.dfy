/** The browser's list adapter: the rows it holds and what each row
    shows. The two switches are fixed when the adapter is built. */
module FileAdapter {
  import opened Wrappers
  import opened VideoFiles
  import opened FileManager

  datatype Adapter = Adapter(files: seq<VideoFile>, showFileSize: bool, showDuration: bool)

  datatype Icon = Folder | Film

  /** What a bound row displays: the icon, the name, and the size and
      duration labels when they are visible. */
  datatype Row = Row(icon: Icon, name: string, size: Option<SizeLabel>, duration: Option<string>)

  /** `getItemCount()`. */
  function ItemCount(a: Adapter): nat {
    |a.files|
  }

  /** `updateFiles(newFiles)`: the rows are replaced, the switches kept. */
  function UpdateFiles(a: Adapter, newFiles: seq<VideoFile>): (r: Adapter)
    ensures ItemCount(r) == |newFiles|
    ensures forall i :: 0 <= i < |newFiles| ==> Bind(r, i) == Bind(Adapter(newFiles, a.showFileSize, a.showDuration), i)
    ensures r.showFileSize == a.showFileSize && r.showDuration == a.showDuration
  {
    a.(files := newFiles)
  }

  /** `onBindViewHolder(holder, position)`. */
  function Bind(a: Adapter, position: nat): (r: Row)
    requires position < |a.files|
    ensures var f := a.files[position];
      && (r.icon == Folder <==> f.isDirectory)
      && r.name == f.name
      && (r.size.Some? <==> a.showFileSize && !f.isDirectory)
      && (r.size.Some? ==> r.size.value == FormatFileSize(f.size))
      && (r.duration.Some? <==> a.showDuration && f.duration.Some? && !f.isDirectory)
      && (r.duration.Some? ==> r.duration.value == FormatDuration(f.duration.value))
  {
    var f := a.files[position];
    Row(
      if f.isDirectory then Folder else Film,
      f.name,
      if a.showFileSize && !f.isDirectory then Some(FormatFileSize(f.size)) else None,
      if a.showDuration && f.duration.Some? && !f.isDirectory then Some(FormatDuration(f.duration.value)) else None)
  }
}
