/**
 * The upload directory as a table from storage name to bytes, and the
 * naming convention that ties a stored file to its owner: the file `f`
 * of user `u` is stored as `u + "_" + f`, and the listing for `u` takes
 * every stored name that starts with `u + "_"`.
 */
module Storage {

  newtype byte = x: int | 0 <= x < 256

  /** The contents of the upload directory. */
  type Disk = map<string, seq<byte>>

  const Separator: char := '_'

  /**
   * The operating system's path separator. The map below takes a storage
   * name as a flat key, which matches the directory only for names
   * without it: a '/' in a username or file name makes the joined path
   * leave the directory, go through a subdirectory, or alias another name.
   */
  const PathSeparator: char := '/'

  /** A username and file name whose storage name is a plain entry of the upload directory. */
  predicate PlainUpload(username: string, filename: string)
  {
    PathSeparator !in username && PathSeparator !in filename
  }

  predicate StartsWith(s: string, prefix: string)
  {
    |prefix| <= |s| && s[..|prefix|] == prefix
  }

  /** The prefix, the username followed by the separator, that marks a user's files. */
  function OwnerPrefix(username: string): (p: string)
    ensures |p| == |username| + 1 && p[..|username|] == username && p[|username|] == Separator
  {
    username + [Separator]
  }

  /** The name an upload is stored under: the owner prefix, then the uploaded file name. */
  function StorageName(username: string, filename: string): (name: string)
    ensures StartsWith(name, OwnerPrefix(username))
    ensures name[|username| + 1..] == filename
  {
    OwnerPrefix(username) + filename
  }

  /** The listing of `username` picks up the stored `name`. */
  predicate ListedFor(username: string, name: string)
  {
    StartsWith(name, OwnerPrefix(username))
  }

  /** What the listing reports as the file's name: the stored name past the owner prefix. */
  function OriginalName(username: string, name: string): (filename: string)
    requires ListedFor(username, name)
    ensures StorageName(username, filename) == name
  {
    assert name == name[..|username| + 1] + name[|username| + 1..];
    name[|username| + 1..]
  }

  /** Stripping the owner prefix loses nothing: distinct stored names report distinct names. */
  lemma OriginalNameInjective(username: string, n1: string, n2: string)
    requires ListedFor(username, n1) && ListedFor(username, n2)
    ensures OriginalName(username, n1) == OriginalName(username, n2) ==> n1 == n2
  {
  }

  /** One element of the result of list_files. */
  datatype FileEntry = FileEntry(name: string, size: nat)

  function EntryOf(files: Disk, username: string, name: string): FileEntry
    requires name in files && ListedFor(username, name)
  {
    FileEntry(OriginalName(username, name), |files[name]|)
  }

  /** The entries the listing of `username` produces from the stored names in `names`. */
  ghost function ListingWithin(files: Disk, username: string, names: set<string>): set<FileEntry>
  {
    set name | name in names && name in files && ListedFor(username, name) :: EntryOf(files, username, name)
  }

  /** Everything list_files reports for `username`. */
  ghost function Listing(files: Disk, username: string): (r: set<FileEntry>)
    ensures forall name :: name in files && ListedFor(username, name) ==> EntryOf(files, username, name) in r
    ensures forall e | e in r :: exists name | name in files && ListedFor(username, name) :: e == EntryOf(files, username, name)
  {
    ListingWithin(files, username, files.Keys)
  }

  /** Visiting one more stored name adds at most its own entry. */
  lemma ListingWithinAdd(files: Disk, username: string, names: set<string>, name: string)
    requires name in files
    ensures ListedFor(username, name) ==>
      ListingWithin(files, username, names + {name}) == ListingWithin(files, username, names) + {EntryOf(files, username, name)}
    ensures !ListedFor(username, name) ==>
      ListingWithin(files, username, names + {name}) == ListingWithin(files, username, names)
  {
  }

  /** An entry of a listing comes from exactly one visited stored name. */
  lemma ListingWithinSource(files: Disk, username: string, names: set<string>, name: string)
    requires name in files && ListedFor(username, name) && name !in names
    ensures EntryOf(files, username, name) !in ListingWithin(files, username, names)
  {
  }

  /**
   * Writing an upload to its storage name; the file is opened truncating,
   * so the bytes replace whatever was stored under that name.
   */
  function Store(files: Disk, username: string, filename: string, content: seq<byte>): (files': Disk)
    ensures files'.Keys == files.Keys + {StorageName(username, filename)}
    ensures files'[StorageName(username, filename)] == content
    ensures forall name :: name in files && name != StorageName(username, filename) ==> files'[name] == files[name]
  {
    files[StorageName(username, filename) := content]
  }

  /**
   * After an upload the owner's listing holds the new file with its size,
   * has lost the entry of the bytes it replaced, and is otherwise unchanged.
   */
  lemma ListingAfterStore(files: Disk, username: string, filename: string, content: seq<byte>)
    requires PlainUpload(username, filename)
    ensures Listing(Store(files, username, filename, content), username)
         == ListingWithin(files, username, files.Keys - {StorageName(username, filename)}) + {FileEntry(filename, |content|)}
  {
  }

  lemma UploadThenListed(files: Disk, username: string, filename: string, content: seq<byte>)
    requires PlainUpload(username, filename)
    ensures FileEntry(filename, |content|) in Listing(Store(files, username, filename, content), username)
  {
  }

  /** Some stored name would appear in the listings of both users. */
  ghost predicate ListingsOverlap(u1: string, u2: string)
  {
    exists name :: ListedFor(u1, name) && ListedFor(u2, name)
  }

  /**
   * Two users' listings can share a stored name exactly when they are the
   * same user or one user's name starts with the other's name and "_".
   */
  lemma ListingsOverlapIff(u1: string, u2: string)
    ensures ListingsOverlap(u1, u2) <==>
      u1 == u2 || StartsWith(u2, OwnerPrefix(u1)) || StartsWith(u1, OwnerPrefix(u2))
  {
    if ListingsOverlap(u1, u2) {
      var name :| ListedFor(u1, name) && ListedFor(u2, name);
      if |u1| <= |u2| {
        PrefixOfPrefix(name, OwnerPrefix(u1), OwnerPrefix(u2));
      } else {
        PrefixOfPrefix(name, OwnerPrefix(u2), OwnerPrefix(u1));
      }
    }
    if u1 == u2 {
      assert ListedFor(u1, OwnerPrefix(u1)) && ListedFor(u2, OwnerPrefix(u1));
    } else if StartsWith(u2, OwnerPrefix(u1)) {
      assert OwnerPrefix(u2)[..|u1| + 1] == u2[..|u1| + 1];
      assert ListedFor(u1, OwnerPrefix(u2)) && ListedFor(u2, OwnerPrefix(u2));
    } else if StartsWith(u1, OwnerPrefix(u2)) {
      assert OwnerPrefix(u1)[..|u2| + 1] == u1[..|u2| + 1];
      assert ListedFor(u1, OwnerPrefix(u1)) && ListedFor(u2, OwnerPrefix(u1));
    }
  }

  /** Of two owner prefixes of one name, the shorter equals the longer or starts its username. */
  lemma PrefixOfPrefix(name: string, short: string, long: string)
    requires StartsWith(name, short) && StartsWith(name, long)
    requires 0 < |short| <= |long|
    ensures short == long || StartsWith(long[..|long| - 1], short)
  {
  }

  /**
   * The isolation the storage-name convention gives: two different users
   * whose names hold no "_" never see each other's files.
   */
  lemma SeparatorFreeIsolated(u1: string, u2: string)
    requires u1 != u2 && Separator !in u1 && Separator !in u2
    ensures !ListingsOverlap(u1, u2)
  {
  }

  /**
   * Under that condition, and with plain names, uploads of different users
   * never overwrite each other. Distinct storage names are distinct files only
   * in a directory that compares names exactly (case-sensitive, without Unicode
   * normalisation, with `/` the only separator).
   */
  lemma NoOverwriteAcrossUsers(u1: string, f1: string, u2: string, f2: string)
    requires u1 != u2 && Separator !in u1 && Separator !in u2
    requires PlainUpload(u1, f1) && PlainUpload(u2, f2)
    ensures StorageName(u1, f1) != StorageName(u2, f2)
  {
  }

  /** ... and an upload by one of them leaves the other's listing as it was. */
  lemma UploadKeepsOtherListings(files: Disk, username: string, filename: string, content: seq<byte>, other: string)
    requires username != other && Separator !in username && Separator !in other
    requires PlainUpload(username, filename) && PathSeparator !in other
    ensures Listing(Store(files, username, filename, content), other) == Listing(files, other)
  {
  }

  /** Without the condition the claim fails: user "a" uploading "b_c" overwrites "c" of user "a_b". */
  lemma CrossUserOverwrite()
    ensures "a" != "a_b" && StorageName("a", "b_c") == StorageName("a_b", "c")
  {
  }

  /** ... and the listing of "a" reports the file "c" of user "a_b", as "b_c". */
  lemma CrossUserListing()
    ensures FileEntry("b_c", 1) in Listing(Store(map[], "a_b", "c", [7]), "a")
  {
    var name := StorageName("a_b", "c");
    assert name == "a_b_c";
    assert ListedFor("a", name);
    assert OriginalName("a", name) == "b_c";
  }
}
