/**
 * `FileWrapper`: one open file holding one serialized document. The file is
 * a character buffer with a read/write position; `save` truncates, rewinds
 * and writes the whole document, `load` reads everything back from the start
 * and decodes it.
 */
module FileStorage {
  import opened Wrappers
  import opened Strings
  import opened Utils

  /**
   * A serializer pair standing for `serde_json::to_string_pretty` and
   * `serde_json::from_str` at one type.
   */
  datatype Codec<!T> = Codec(encode: T -> string, decode: string -> Option<T>)

  /**
   * What the program relies on from its serializer: decoding an encoded value
   * gives it back, and an encoded document is never blank (JSON output always
   * has a bracket, a quote or a literal).
   */
  ghost predicate Faithful<T(!new)>(codec: Codec<T>) {
    forall v: T :: codec.decode(codec.encode(v)) == Some(v) && !IsBlank(codec.encode(v))
  }

  /** `FileWrapperOptions`: how the file is opened. */
  datatype FileWrapperOptions = FileWrapperOptions(read: bool, write: bool, create: bool)

  /** `FileWrapperOptions::default`: open for reading and writing, creating the file if missing. */
  function DefaultOptions(): (o: FileWrapperOptions)
    ensures o.read && o.write && o.create
  {
    FileWrapperOptions(true, true, true)
  }

  /** The content of the file at `path`; a file that does not exist yet reads as empty. */
  function Content(files: Files, path: Path): (s: string)
    ensures path in files ==> s == files[path]
    ensures path !in files ==> s == []
  {
    if path in files then files[path] else []
  }

  /** Opening with `create` set: a missing file comes into existence, empty; an existing one is untouched. */
  function Touch(files: Files, path: Path): (r: Files)
    ensures r.Keys == files.Keys + {path}
    ensures r[path] == Content(files, path)
    ensures forall p :: p in files ==> r[p] == files[p]
    ensures forall p :: Content(r, p) == Content(files, p)
  {
    if path in files then files else files[path := []]
  }

  function EmptyFileMessage(path: Path): string {
    "File " + Display(path) + " is empty."
  }

  function DecodeErrorMessage(path: Path): string {
    "Error deserializing file: " + Display(path)
  }

  /**
   * What `load` makes of the data it read: blank data (empty, or only
   * whitespace) is refused before decoding, data that does not decode is
   * refused, anything else is the decoded value.
   */
  function Loaded<T>(data: string, path: Path, codec: Codec<T>): (r: Result<T>)
    ensures IsBlank(data) ==> r == Err(EmptyFileMessage(path))
    ensures !IsBlank(data) && codec.decode(data).None? ==> r == Err(DecodeErrorMessage(path))
    ensures r.Ok? <==> !IsBlank(data) && codec.decode(data).Some?
    ensures r.Ok? ==> codec.decode(data) == Some(r.value)
  {
    if IsBlank(data) then Err(EmptyFileMessage(path))
    else match codec.decode(data)
      case None => Err(DecodeErrorMessage(path))
      case Some(v) => Ok(v)
  }

  /**
   * The collection a read-modify-write handler starts from: `blank` when the
   * file has no content at all (`is_empty`), otherwise what `load` makes of it.
   */
  function Stored<T>(files: Files, path: Path, codec: Codec<T>, blank: T): (r: Result<T>)
    ensures |Content(files, path)| == 0 ==> r == Ok(blank)
    ensures |Content(files, path)| != 0 ==> path in files && r == Loaded(files[path], path, codec)
  {
    var data := Content(files, path);
    if |data| == 0 then Ok(blank) else Loaded(data, path, codec)
  }

  /** A document saved with a faithful codec loads back as the value saved. */
  lemma LoadAfterSave<T(!new)>(v: T, path: Path, codec: Codec<T>)
    requires Faithful(codec)
    ensures Loaded(codec.encode(v), path, codec) == Ok(v)
  {
    assert codec.decode(codec.encode(v)) == Some(v) && !IsBlank(codec.encode(v));
  }

  /** A handler reading a file it saved before sees the value it saved, never the blank start. */
  lemma StoredAfterSave<T(!new)>(files: Files, path: Path, v: T, codec: Codec<T>, blank: T)
    requires Faithful(codec)
    ensures |Content(files[path := codec.encode(v)], path)| != 0
    ensures Stored(files[path := codec.encode(v)], path, codec, blank) == Ok(v)
  {
    var data := codec.encode(v);
    LoadAfterSave(v, path, codec);
    assert |data| != 0 by {
      if |data| == 0 { assert IsBlank(data); }
    }
  }

  /**
   * A file holding only whitespace passes the handlers' `is_empty` test (its
   * length is not zero), so they do not start from the blank collection; and
   * `load` then refuses it as empty. One such file: " \n".
   */
  lemma BlankNotEmptyButRefused<T>(files: Files, path: Path, codec: Codec<T>, blank: T)
    requires path in files && |files[path]| > 0 && IsBlank(files[path])
    ensures Stored(files, path, codec, blank) == Err(EmptyFileMessage(path))
    ensures Stored(files, path, codec, blank) != Ok(blank)
  {
  }

  /** `n` NUL characters: what a write past the end of a file leaves in the gap. */
  function Zeros(n: nat): (s: string)
    ensures |s| == n && forall i :: 0 <= i < n ==> s[i] == '\0'
  {
    if n == 0 then [] else Zeros(n - 1) + ['\0']
  }

  /**
   * The content after writing `data` at position `pos`: bytes before `pos`
   * are kept (padded with NULs up to `pos`), `data` replaces what was there,
   * and whatever lay beyond the written range is kept too.
   */
  function Overwrite(content: string, pos: nat, data: string): (r: string)
    ensures |r| == if pos + |data| <= |content| then |content| else pos + |data|
    ensures r[pos..pos + |data|] == data
    ensures forall i :: 0 <= i < pos && i < |content| ==> r[i] == content[i]
    ensures forall i :: |content| <= i < pos ==> r[i] == '\0'
    ensures forall i :: pos + |data| <= i < |content| ==> r[i] == content[i]
  {
    var padded := if pos <= |content| then content else content + Zeros(pos - |content|);
    var tail := if pos + |data| < |padded| then padded[pos + |data|..] else [];
    padded[..pos] + data + tail
  }

  /** Without the truncation, rewriting a longer document with a shorter one would leave its tail behind. */
  lemma TruncateMatters(content: string, data: string)
    requires |data| < |content|
    ensures Overwrite(content, 0, data) != data
  {
  }

  /** Without the rewind, writing after the truncation would leave NULs in front of the document. */
  lemma RewindMatters(pos: nat, data: string)
    requires pos > 0
    ensures Overwrite([], pos, data) != data
    ensures Overwrite([], pos, data)[0] == '\0'
  {
  }

  /** An open file: its path, its content and the current read/write position. */
  class FileWrapper {
    const path: Path
    var content: string
    var cursor: nat

    /**
     * `FileWrapper::from_string` / `from_path` with the default options: the
     * file at `path` is opened (created empty when missing) at position 0.
     */
    constructor Open(path: Path, files: Files)
      ensures this.path == path && content == Content(files, path) && cursor == 0
    {
      this.path := path;
      content := Content(files, path);
      cursor := 0;
    }

    /** `File::set_len(0)`: the content is dropped; the position does not move. */
    method Truncate()
      modifies this
      ensures content == [] && cursor == old(cursor)
    {
      content := [];
    }

    /** `Seek::rewind`: back to position 0. */
    method Rewind()
      modifies this
      ensures cursor == 0 && content == old(content)
    {
      cursor := 0;
    }

    /** `Write::write_all`: `data` is written at the position, which then moves past it. */
    method WriteAll(data: string)
      modifies this
      ensures content == Overwrite(old(content), old(cursor), data)
      ensures cursor == old(cursor) + |data|
    {
      content := Overwrite(content, cursor, data);
      cursor := cursor + |data|;
    }

    /** `Read::read_to_string`: everything from the position to the end; the position moves to the end. */
    method ReadToString() returns (s: string)
      modifies this
      ensures s == if old(cursor) <= |content| then content[old(cursor)..] else []
      ensures content == old(content)
      ensures cursor == if old(cursor) <= |content| then |content| else old(cursor)
    {
      if cursor <= |content| {
        s := content[cursor..];
        cursor := |content|;
      } else {
        s := [];
      }
    }

    /** `get_data`: rewind, then read to the end; the result is the whole content, which is not changed. */
    method GetData() returns (s: string)
      modifies this
      ensures s == content && content == old(content)
    {
      Rewind();
      s := ReadToString();
    }

    /** `is_empty`: the file holds zero characters (whitespace counts as content). */
    method IsEmpty() returns (b: bool)
      modifies this
      ensures b <==> |content| == 0
      ensures content == old(content)
    {
      var data := GetData();
      b := |data| == 0;
    }

    /**
     * `save`: truncate, rewind, write the encoded document. Whatever the file
     * held before, and wherever the position was, it then holds exactly the
     * document.
     */
    method Save<T>(v: T, codec: Codec<T>)
      modifies this
      ensures content == codec.encode(v)
      ensures cursor == |content|
    {
      var serialized := codec.encode(v);
      Truncate();
      Rewind();
      WriteAll(serialized);
      assert content == [] + serialized + [];
    }

    /** `load`: read the whole content from the start and decode it; nothing is changed. */
    method Load<T>(codec: Codec<T>) returns (r: Result<T>)
      modifies this
      ensures r == Loaded(content, path, codec)
      ensures content == old(content)
    {
      var data := GetData();
      if IsBlank(data) {
        return Err(EmptyFileMessage(path));
      }
      var decoded := codec.decode(data);
      if decoded.None? {
        return Err(DecodeErrorMessage(path));
      }
      return Ok(decoded.value);
    }
  }
}
