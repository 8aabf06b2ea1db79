/**
 * dvrrecover/config.py: the six configuration keys, their defaults, and the
 * conversion between Python values and what the setting table stores.  The
 * list of input file names is stored as one string with the names separated
 * by NUL characters.
 */
module Config {
  import opened Wrappers
  import opened Text
  import Database

  /** A Python value handed to `set` or returned by `get`. */
  datatype PyValue = PyNone | PyInt(i: int) | PyStr(s: string) | PyList(names: seq<string>)

  datatype ConfigError =
    | UnknownConfig  // UnknownConfigError: not one of the six keys
    | Unstorable     // a value SQLite cannot bind, or `len` of an int

  const InputFilenames: string := "input_filenames"
  const Blocksize: string := "blocksize"
  const ExportDir: string := "export_dir"
  const MinChunkSize: string := "min_chunk_size"
  const MaxCreateGap: string := "max_create_gap"
  const MaxSortGap: string := "max_sort_gap"

  const Nul: char := 0 as char

  /** `is_valid_key`: the key is one of the six setting names. */
  function IsValidKey(key: string): (valid: bool)
    ensures valid <==> key == InputFilenames || key == Blocksize || key == ExportDir
                       || key == MinChunkSize || key == MaxCreateGap || key == MaxSortGap
  {
    key in {InputFilenames, Blocksize, ExportDir, MinChunkSize, MaxCreateGap, MaxSortGap}
  }

  /** `defaults`: stored form of each key's default value. */
  function Default(key: string): (value: Database.Value)
    requires IsValidKey(key)
    ensures key == InputFilenames || key == ExportDir <==> value == Database.Null
  {
    if key == Blocksize then Database.Int(2048)
    else if key == MinChunkSize then Database.Int(2560)
    else if key == MaxCreateGap || key == MaxSortGap then Database.Int(90000)
    else Database.Null
  }

  /** The characters of a string as one-character strings, as `join` iterates over a string. */
  function Chars(s: string): (names: seq<string>)
    ensures |names| == |s| && forall i :: 0 <= i < |s| ==> names[i] == [s[i]]
  {
    seq(|s|, i requires 0 <= i < |s| => [s[i]])
  }

  /**
   * `encode`: None stays None; for `input_filenames` a non-empty list
   * (or string) is joined with NUL and an empty one becomes None; any
   * other value is stored as it is.
   */
  function Encode(key: string, value: PyValue): (stored: Result<Database.Value, ConfigError>)
    ensures value == PyNone ==> stored == Ok(Database.Null)
    ensures key == InputFilenames && value.PyList? ==>
      stored == Ok(if value.names == [] then Database.Null else Database.Text(Join(value.names, Nul)))
    ensures key != InputFilenames && value.PyInt? ==> stored == Ok(Database.Int(value.i))
    ensures key != InputFilenames && value.PyStr? ==> stored == Ok(Database.Text(value.s))
  {
    match value
    case PyNone => Ok(Database.Null)
    case PyList(names) =>
      if key != InputFilenames then Err(Unstorable)
      else if |names| > 0 then Ok(Database.Text(Join(names, Nul)))
      else Ok(Database.Null)
    case PyStr(s) =>
      if key != InputFilenames then Ok(Database.Text(s))
      else if |s| > 0 then Ok(Database.Text(Join(Chars(s), Nul)))
      else Ok(Database.Null)
    case PyInt(i) =>
      if key != InputFilenames then Ok(Database.Int(i)) else Err(Unstorable)
  }

  /** `decode`: for `input_filenames` None is the empty list and a string is split at NUL; other values are returned as they are. */
  function Decode(key: string, stored: Database.Value): (value: PyValue)
    ensures key == InputFilenames ==> value.PyList?
    ensures key == InputFilenames && stored.Text? ==> value.names == Split(stored.s, Nul)
    ensures key == InputFilenames && stored.Null? ==> value.names == []
  {
    if key == InputFilenames then
      match stored
      case Null => PyList([])
      case Text(s) => PyList(Split(s, Nul))
      case Int(i) => PyList(Split(Show(i), Nul))
    else
      match stored
      case Null => PyNone
      case Int(i) => PyInt(i)
      case Text(s) => PyStr(s)
  }

  /** Decoding what was encoded gives back every list of file names without NUL characters. */
  lemma FilenamesRoundTrip(names: seq<string>)
    requires forall i :: 0 <= i < |names| ==> Nul !in names[i]
    ensures Encode(InputFilenames, PyList(names)).Ok?
    ensures Decode(InputFilenames, Encode(InputFilenames, PyList(names)).value) == PyList(names)
  {
    if names != [] {
      SplitJoin(names, Nul);
    }
  }

  /** The values of every other key pass through unchanged. */
  lemma OtherKeysRoundTrip(key: string, value: PyValue)
    requires key != InputFilenames && !value.PyList?
    ensures Encode(key, value).Ok? && Decode(key, Encode(key, value).value) == value
  {
  }

  /** Every stored file-name string comes back as the same string after a decode and an encode. */
  lemma StoredFilenamesRoundTrip(s: string)
    ensures Encode(InputFilenames, Decode(InputFilenames, Database.Text(s))) ==
      Ok(Database.Text(Join(Split(s, Nul), Nul)))
    ensures Join(Split(s, Nul), Nul) == s
  {
    JoinSplit(s, Nul);
  }

  /** `get`: the decoded setting, or the decoded default when none is stored. */
  function Get(db: Database.DatabaseManager, key: string): (value: Result<PyValue, ConfigError>)
    reads db
    ensures !IsValidKey(key) <==> value == Err(UnknownConfig)
    ensures IsValidKey(key) && (key !in db.settings || db.settings[key] == Database.Null) ==>
      value == Ok(Decode(key, Default(key)))
    ensures IsValidKey(key) && key in db.settings && db.settings[key] != Database.Null ==>
      value == Ok(Decode(key, db.settings[key]))
  {
    if !IsValidKey(key) then Err(UnknownConfig)
    else
      var stored := db.SettingQuery(key);
      Ok(Decode(key, if stored == Database.Null then Default(key) else stored))
  }

  /** `set`: stores the encoded value under the key, replacing the old one. */
  method Set(db: Database.DatabaseManager, key: string, value: PyValue) returns (result: Result<(), ConfigError>)
    modifies db
    ensures !IsValidKey(key) ==> result == Err(UnknownConfig) && db.settings == old(db.settings)
    ensures IsValidKey(key) && Encode(key, value).Err? ==> result == Err(Unstorable) && db.settings == old(db.settings)
    ensures IsValidKey(key) && Encode(key, value).Ok? ==>
      result == Ok(()) && db.settings == old(db.settings)[key := Encode(key, value).value]
    ensures IsValidKey(key) && Encode(key, value).Ok? && Encode(key, value).value != Database.Null ==>
      Get(db, key) == Ok(Decode(key, Encode(key, value).value))
    ensures db.chunks == old(db.chunks) && db.state == old(db.state)
  {
    if !IsValidKey(key) {
      return Err(UnknownConfig);
    }
    var stored := Encode(key, value);
    if stored.Err? {
      return Err(stored.error);
    }
    db.SettingInsert(key, stored.value);
    result := Ok(());
  }

  /** `reset`: every setting is removed, so `get` returns the defaults. */
  method Reset(db: Database.DatabaseManager)
    modifies db
    ensures db.settings == map[] && db.chunks == old(db.chunks) && db.state == old(db.state)
    ensures forall key :: IsValidKey(key) ==> Get(db, key) == Ok(Decode(key, Default(key)))
  {
    db.SettingReset();
  }

  /** The defaults as `get` returns them. */
  lemma Defaults()
    ensures Decode(InputFilenames, Default(InputFilenames)) == PyList([])
    ensures Decode(Blocksize, Default(Blocksize)) == PyInt(2048)
    ensures Decode(ExportDir, Default(ExportDir)) == PyNone
    ensures Decode(MinChunkSize, Default(MinChunkSize)) == PyInt(2560)
    ensures Decode(MaxCreateGap, Default(MaxCreateGap)) == PyInt(90000)
    ensures Decode(MaxSortGap, Default(MaxSortGap)) == PyInt(90000)
  {
  }
}
