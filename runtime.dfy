/** Abstract stand-ins for the Python values, files and library calls that the
    application's decision logic observes. Nothing here interprets pickles,
    TF-IDF features or classifier numerics: they appear only as outcomes. */
module Runtime {

  datatype Option<+T> = None | Some(value: T)

  /** The outcome of one call into code outside the model: it returns a value,
      or it raises an exception whose str() is `message`. */
  datatype Call<+T> = Returns(value: T) | Raises(message: string)

  /** A Python value as far as `is None`, `hasattr` and `isinstance(_, dict)`
      can tell it apart. `attrs` are the attribute names hasattr finds;
      `isDict` says whether the object is a dict (of any keys and values). */
  datatype PyValue =
    | PyNone
    | PyObject(id: nat, attrs: set<string>, isDict: bool)

  /** Python's hasattr(v, name); None has none of the attributes asked for here. */
  predicate HasAttr(v: PyValue, name: string)
  {
    v.PyObject? && name in v.attrs
  }

  /** Python's isinstance(v, dict). */
  predicate IsDict(v: PyValue)
  {
    v.PyObject? && v.isDict
  }

  /** A file on disk, seen two ways: the lines that reading it as UTF-8 text
      and splitting it gives, and what pickle.load makes of its bytes. */
  datatype FileEntry = FileEntry(lines: seq<string>, unpickled: Call<PyValue>)

  /** The working directory: os.path.exists(p) is `p in fs`. */
  type FileSystem = map<string, FileEntry>
}
