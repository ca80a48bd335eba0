/** Archive member names: the quadratic conflict check, the allowlist policy, and the file tree they stand for. */
module ArchivePolicy {
  import opened Outcomes
  import opened SafeIntegers
  import opened Sequences
  import Utf8

  // ---------- paths as strings and as segments ----------

  /** What the first character of a path does to the segments of the rest. */
  function Prefixed(c: char, segments: seq<string>): (r: seq<string>)
    requires segments != []
    ensures r != []
  {
    if c == '/' then [""] + segments else [[c] + segments[0]] + segments[1..]
  }

  function Split(s: string): (segments: seq<string>)
    ensures segments != []
  {
    if s == "" then [""]
    else
      Prefixed(s[0], Split(s[1..]))
  }

  function Join(segments: seq<string>): string
    requires segments != []
  {
    if |segments| == 1 then segments[0] else segments[0] + "/" + Join(segments[1..])
  }

  predicate IsAncestor(p: string, q: string) {
    p + "/" <= q
  }

  ghost predicate ProperPrefix(p: seq<string>, q: seq<string>) {
    p <= q && |p| < |q|
  }

  lemma {:induction false} JoinSplit(s: string)
    ensures Join(Split(s)) == s
  {
    if s != "" {
      var rest := Split(s[1..]);
      JoinSplit(s[1..]);
      if s[0] == '/' {
        assert ([""] + rest)[1..] == rest;
      } else {
        assert ([[s[0]] + rest[0]] + rest[1..])[1..] == rest[1..];
      }
    }
  }

  lemma SplitCons(c: char, s: string)
    ensures Split([c] + s) == Prefixed(c, Split(s))
  {
    assert ([c] + s)[1..] == s;
  }

  lemma PrefixedConcat(c: char, p: seq<string>, q: seq<string>)
    requires p != []
    ensures Prefixed(c, p + q) == Prefixed(c, p) + q
  {
    assert (p + q)[1..] == p[1..] + q;
  }

  lemma {:induction false} SplitConcat(a: string, b: string)
    ensures Split(a + "/" + b) == Split(a) + Split(b)
  {
    if a == "" {
      SplitCons('/', b);
      assert "" + "/" + b == ['/'] + b;
    } else {
      SplitConcat(a[1..], b);
      SplitCons(a[0], a[1..] + "/" + b);
      SplitCons(a[0], a[1..]);
      PrefixedConcat(a[0], Split(a[1..]), Split(b));
      assert a + "/" + b == [a[0]] + (a[1..] + "/" + b) && a == [a[0]] + a[1..];
      hide Split, Prefixed;
    }
  }

  lemma {:induction false} JoinConcat(p: seq<string>, q: seq<string>)
    requires p != [] && q != []
    ensures Join(p + q) == Join(p) + "/" + Join(q)
  {
    if |p| == 1 {
      assert (p + q)[1..] == q;
    } else {
      JoinConcat(p[1..], q);
      assert (p + q)[1..] == p[1..] + q;
    }
  }

  /** The string test of the loops is the ancestor relation between segment lists. */
  lemma {:induction false} AncestorIsProperPrefix(p: string, q: string)
    ensures IsAncestor(p, q) <==> ProperPrefix(Split(p), Split(q))
  {
    if IsAncestor(p, q) {
      var rest := q[|p| + 1..];
      assert q == p + "/" + rest;
      SplitConcat(p, rest);
    }
    if ProperPrefix(Split(p), Split(q)) {
      var rest := Split(q)[|Split(p)|..];
      assert Split(q) == Split(p) + rest;
      JoinSplit(p);
      JoinSplit(q);
      JoinConcat(Split(p), rest);
    }
  }

  // ---------- names ----------

  predicate IsDirectory(name: string) {
    name != "" && name[|name| - 1] == '/'
  }

  function Normalized(name: string): string {
    if IsDirectory(name) then name[..|name| - 1] else name
  }

  /** What is used of normalisation and lower-casing: it works separately on both sides of a slash. */
  ghost predicate Folding(fold: string -> string) {
    forall a, b :: fold(a + "/" + b) == fold(a) + "/" + fold(b)
  }

  function MemberKey(fold: string -> string, name: string): string {
    fold(Normalized(name))
  }

  function Utf8Length(s: string): nat {
    if s == "" then 0
    else
      (if s[0] < '\U{80}' then 1 else if s[0] < '\U{800}' then 2 else if s[0] < '\U{10000}' then 3 else 4)
      + Utf8Length(s[1..])
  }

  /** The scalars of a name. */
  function ScalarsOf(s: string): (r: seq<int>)
    ensures Utf8.AllScalars(r)
  {
    seq(|s|, i requires 0 <= i < |s| => s[i] as int)
  }

  /** The length is that of the name's UTF-8 bytes. */
  lemma {:induction false} Utf8LengthExactly(s: string)
    ensures Utf8Length(s) == |Utf8.EncodeScalars(ScalarsOf(s))|
  {
    if s != "" {
      Utf8LengthExactly(s[1..]);
      assert ScalarsOf(s)[1..] == ScalarsOf(s[1..]);
    }
  }

  /**
    The names accepted, character by character and segment by segment: relative, of
    nonempty segments none of which is a dot or two, without control characters,
    wildcards and backslashes, and not on a drive.
   */
  ghost predicate IsSafePath(segments: seq<string>) {
    && segments != []
    && forall i | 0 <= i < |segments| ::
      && segments[i] != "" && segments[i] != "." && segments[i] != ".."
      && forall j | 0 <= j < |segments[i]| ::
        var code := segments[i][j] as int;
        && 32 <= code != 127 && code != 47 && code != 42 && code != 63 && code != 91 && code != 92 && code != 93
        && (i == 0 && j == 1 && code == 58 ==>
              !(65 <= segments[0][0] as int <= 90) && !(97 <= segments[0][0] as int <= 122))
  }

  /** A name is accepted exactly when it joins the segments of a safe path, with a slash after a directory. */
  lemma {:induction false} MemberNameExactly(name: string, directory: bool)
    ensures IsMemberName(name, directory)
       <==> exists segments :: IsSafePath(segments) && name == Join(segments) + if directory then "/" else ""
  {
    if IsMemberName(name, directory) {
      var segments := Split(Normalized(name));
      JoinSplit(Normalized(name));
      SplitIsSafe(name, directory);
      assert name == Join(segments) + if directory then "/" else "";
    }
    if segments :| IsSafePath(segments) && name == Join(segments) + if directory then "/" else "" {
      SafeIsMemberName(name, directory, segments);
    }
  }

  lemma {:induction false} JoinCharacters(segments: seq<string>)
    requires segments != []
    ensures forall c :: c in Join(segments) <==>
              (exists i | 0 <= i < |segments| :: c in segments[i]) || (c == '/' && |segments| > 1)
  {
    if |segments| > 1 {
      JoinCharacters(segments[1..]);
      assert segments == [segments[0]] + segments[1..];
    }
  }

  lemma {:induction false} SplitHasNoSlash(s: string)
    ensures forall part | part in Split(s) :: '/' !in part
  {
    if s != "" {
      SplitHasNoSlash(s[1..]);
    }
  }

  lemma {:induction false} SplitJoin(segments: seq<string>)
    requires segments != [] && forall i | 0 <= i < |segments| :: '/' !in segments[i]
    ensures Split(Join(segments)) == segments
  {
    SplitOne(segments[0]);
    if |segments| > 1 {
      SplitJoin(segments[1..]);
      SplitConcat(segments[0], Join(segments[1..]));
      assert segments == [segments[0]] + segments[1..];
    }
  }

  lemma {:induction false} SplitOne(s: string)
    requires '/' !in s
    ensures Split(s) == [s]
  {
    if s != "" {
      SplitOne(s[1..]);
      assert [s[1..]][1..] == [] && s == [s[0]] + s[1..];
    }
  }

  lemma {:induction false} SplitIsSafe(name: string, directory: bool)
    requires IsMemberName(name, directory)
    ensures IsSafePath(Split(Normalized(name)))
  {
    var path := Normalized(name);
    var segments := Split(path);
    JoinSplit(path);
    JoinCharacters(segments);
    SplitHasNoSlash(path);
    forall i, j | 0 <= i < |segments| && 0 <= j < |segments[i]|
      ensures segments[i][j] in name && segments[i][j] != '/'
    {
      assert segments[i] in segments && segments[i][j] in segments[i];
      assert segments[i][j] in path;
    }
    assert forall i | 0 <= i < |segments| :: segments[i] in segments;
    if |segments[0]| >= 2 {
      assert segments[0] <= Join(segments);
      assert name[0] == segments[0][0] && name[1] == segments[0][1];
    }
  }

  lemma {:induction false} SafeIsMemberName(name: string, directory: bool, segments: seq<string>)
    requires IsSafePath(segments) && name == Join(segments) + if directory then "/" else ""
    ensures IsMemberName(name, directory)
  {
    hide Join, Split;
    SafeEnds(name, directory, segments);
    SafeCharacters(name, directory, segments);
    SafeStart(name, directory, segments);
    forall i | 0 <= i < |segments| ensures '/' !in segments[i] {
    }
    SplitJoin(segments);
    hide IsSafePath;
    forall part | part in Split(Normalized(name)) ensures part != "" && part != "." && part != ".." {
      var i :| 0 <= i < |segments| && segments[i] == part;
      SafeSegment(segments, i);
    }
  }

  lemma SafeSegment(segments: seq<string>, i: nat)
    requires IsSafePath(segments) && i < |segments|
    ensures segments[i] != "" && segments[i] != "." && segments[i] != ".."
  {
  }

  lemma SafeEnds(name: string, directory: bool, segments: seq<string>)
    requires IsSafePath(segments) && name == Join(segments) + if directory then "/" else ""
    ensures name != "" && directory == IsDirectory(name) && Normalized(name) == Join(segments)
  {
    hide Join;
    var last := segments[|segments| - 1];
    LastOfJoin(segments);
    assert last[|last| - 1] != '/';
    assert directory ==> name[..|name| - 1] == Join(segments);
    assert !directory ==> name == Join(segments);
  }

  lemma SafeCharacters(name: string, directory: bool, segments: seq<string>)
    requires IsSafePath(segments) && name == Join(segments) + if directory then "/" else ""
    ensures forall c | c in name :: c !in "\\*?[]" && c >= ' ' && c != '\U{7f}'
  {
    hide Join;
    JoinCharacters(segments);
    forall c | c in name ensures c !in "\\*?[]" && c >= ' ' && c != '\U{7f}' {
      if c != '/' {
        var i :| 0 <= i < |segments| && c in segments[i];
        var j :| 0 <= j < |segments[i]| && segments[i][j] == c;
      }
    }
  }

  lemma SafeStart(name: string, directory: bool, segments: seq<string>)
    requires IsSafePath(segments) && name == Join(segments) + if directory then "/" else ""
    ensures name[0] != '/' && !(|name| >= 2 && IsDriveLetter(name[0]) && name[1] == ':')
  {
    var first := segments[0];
    assert first <= Join(segments) <= name;
    assert name[0] == first[0];
    if |name| >= 2 {
      assert name[1] == if |first| >= 2 then first[1] else '/';
    }
  }

  lemma {:induction false} LastOfJoin(segments: seq<string>)
    requires segments != [] && segments[|segments| - 1] != ""
    ensures Join(segments) != ""
    ensures var last := segments[|segments| - 1]; Join(segments)[|Join(segments)| - 1] == last[|last| - 1]
  {
    if |segments| > 1 {
      LastOfJoin(segments[1..]);
    }
  }

  predicate IsDriveLetter(c: char) {
    'A' <= c <= 'Z' || 'a' <= c <= 'z'
  }

  /** A name that no unpacker can take for anything but a path below the root. */
  predicate IsMemberName(name: string, directory: bool) {
    && name != ""
    && (forall c | c in name :: c !in "\\*?[]" && c >= ' ' && c != '\U{7f}')
    && name[0] != '/'
    && !(|name| >= 2 && IsDriveLetter(name[0]) && name[1] == ':')
    && directory == IsDirectory(name)
    && (forall part | part in Split(Normalized(name)) :: part != "" && part != "." && part != "..")
  }

  /** The check as the code orders it: it splits the whole name and pops the part after a directory's slash. */
  predicate ValidateMemberName(name: string, directory: bool, maxNameBytes: nat)
    ensures ValidateMemberName(name, directory, maxNameBytes)
       <==> IsMemberName(name, directory) && Utf8Length(name) <= maxNameBytes
  {
    if name == "" || Utf8Length(name) > maxNameBytes then false
    else if (exists c | c in name :: c in "\\*?[]" || c < ' ' || c == '\U{7f}')
      || name[0] == '/' || (|name| >= 2 && IsDriveLetter(name[0]) && name[1] == ':') then false
    else if directory != IsDirectory(name) then false
    else
      var parts := if directory then Split(name)[..|Split(name)| - 1] else Split(name);
      assert directory ==> parts == Split(Normalized(name)) by { if directory { TrailingSlash(name); } }
      parts != [] && forall part | part in parts :: part != "" && part != "." && part != ".."
  }

  lemma TrailingSlash(name: string)
    requires IsDirectory(name)
    ensures Split(name) == Split(Normalized(name)) + [""]
  {
    assert name == Normalized(name) + "/" + "";
    SplitConcat(Normalized(name), "");
  }

  // ---------- conflicts ----------

  predicate Clash(p: string, pIsDirectory: bool, q: string, qIsDirectory: bool) {
    (IsAncestor(p, q) && !pIsDirectory) || (IsAncestor(q, p) && !qIsDirectory)
  }

  /** Two members that cannot both be unpacked under folded names. */
  predicate Conflict(fold: string -> string, a: string, b: string) {
    || MemberKey(fold, a) == MemberKey(fold, b)
    || Clash(MemberKey(fold, a), IsDirectory(a), MemberKey(fold, b), IsDirectory(b))
  }

  ghost predicate NonConflicting(fold: string -> string, names: seq<string>) {
    forall j, k | 0 <= j < k < |names| :: !Conflict(fold, names[j], names[k])
  }

  method ClashesWithAny(paths: map<string, bool>, path: string, isDirectory: bool) returns (found: bool)
    ensures found <==> exists other | other in paths :: Clash(other, paths[other], path, isDirectory)
  {
    var remaining := paths.Keys;
    while remaining != {}
      invariant remaining <= paths.Keys
      invariant forall other | other in paths && other !in remaining :: !Clash(other, paths[other], path, isDirectory)
    {
      var existing :| existing in remaining;
      if (path + "/" <= existing && !isDirectory) || (existing + "/" <= path && !paths[existing]) {
        assert Clash(existing, paths[existing], path, isDirectory);
        return true;
      }
      remaining := remaining - {existing};
    }
    return false;
  }

  function KeyOf(fold: string -> string): string -> string {
    n => MemberKey(fold, n)
  }

  function PathOf(): string -> string {
    n => Normalized(n)
  }

  /** A map from the keys of some names to their kinds. */
  ghost predicate IsTable(names: seq<string>, key: string -> string, table: map<string, bool>) {
    && (forall n | n in names :: key(n) in table && table[key(n)] == IsDirectory(n))
    && (forall k | k in table :: exists n :: n in names && key(n) == k)
  }

  /** The sets and maps the loop has filled after some names. */
  ghost predicate Recorded(
    fold: string -> string,
    names: seq<string>,
    exact: set<string>,
    folded: set<string>,
    paths: map<string, bool>,
    foldedPaths: map<string, bool>)
  {
    && exact == (set n | n in names)
    && folded == foldedPaths.Keys
    && IsTable(names, PathOf(), paths)
    && IsTable(names, KeyOf(fold), foldedPaths)
  }

  /** A name whose normalised form does not end in a slash, as every validated one. */
  predicate Validated(name: string) {
    !IsDirectory(Normalized(name))
  }

  lemma MemberNamesAreValidated(name: string, directory: bool)
    requires IsMemberName(name, directory)
    ensures Validated(name)
  {
    var n := Normalized(name);
    assert IsDirectory(n) ==> "" in Split(n) by { if IsDirectory(n) { TrailingSlash(n); } }
  }

  method AssertUniqueAndNonConflicting(fold: string -> string, names: seq<string>) returns (ok: bool)
    requires Folding(fold) && forall n | n in names :: Validated(n)
    ensures ok <==> NonConflicting(fold, names)
  {
    hide Folding, Clash, NonConflicting, Recorded;
    var exact: set<string>, folded: set<string> := {}, {};
    var paths: map<string, bool>, foldedPaths: map<string, bool> := map[], map[];
    NothingRecorded(fold);
    for i := 0 to |names|
      invariant Recorded(fold, names[..i], exact, folded, paths, foldedPaths)
      invariant NonConflicting(fold, names[..i])
    {
      var name := names[i];
      assert name in names;
      assert names[..i + 1] == names[..i] + [name];
      var normalized := Normalized(name);
      var foldedPath := MemberKey(fold, normalized);
      var isDirectory := IsDirectory(name);
      ghost var record := (exact, folded, paths, foldedPaths);
      if name in exact || MemberKey(fold, name) in folded {
        RepeatIsConflict(fold, names, i, exact, folded, paths, foldedPaths);
        return false;
      }
      exact := exact + {name};
      folded := folded + {MemberKey(fold, name)};
      if normalized in paths || foldedPath in foldedPaths {
        RepeatedPathHasRepeatedKey(fold, names[..i], name, record.0, record.1, paths, foldedPaths);
        assert false;  // for validated names the key test above has already caught this
        return false;
      }
      var exactClash := ClashesWithAny(paths, normalized, isDirectory);
      if exactClash {
        ExactClashFolds(fold, names, i, record.0, record.1, paths, foldedPaths);
        return false;
      }
      var foldedClash := ClashesWithAny(foldedPaths, foldedPath, isDirectory);
      if foldedClash {
        FoldedClashIsConflict(fold, names, i, record.0, record.1, paths, foldedPaths);
        return false;
      }
      NoClashExtends(fold, names[..i], name, record.0, record.1, paths, foldedPaths);
      paths := paths[normalized := isDirectory];
      foldedPaths := foldedPaths[foldedPath := isDirectory];
    }
    assert names[..|names|] == names;
    return true;
  }

  lemma NothingRecorded(fold: string -> string)
    ensures Recorded(fold, [], {}, {}, map[], map[]) && NonConflicting(fold, [])
  {
  }

  lemma RepeatedPathHasRepeatedKey(
    fold: string -> string, earlier: seq<string>, name: string,
    exact: set<string>, folded: set<string>, paths: map<string, bool>, foldedPaths: map<string, bool>)
    requires Recorded(fold, earlier, exact, folded, paths, foldedPaths) && Validated(name)
    requires Normalized(name) in paths || MemberKey(fold, Normalized(name)) in foldedPaths
    ensures MemberKey(fold, name) in folded
  {
  }

  lemma RepeatIsConflict(
    fold: string -> string, names: seq<string>, i: nat,
    exact: set<string>, folded: set<string>, paths: map<string, bool>, foldedPaths: map<string, bool>)
    requires i < |names| && Recorded(fold, names[..i], exact, folded, paths, foldedPaths)
    requires names[i] in exact || MemberKey(fold, names[i]) in folded
    ensures !NonConflicting(fold, names)
  {
    hide Clash;
    var n :| n in names[..i] && MemberKey(fold, n) == MemberKey(fold, names[i]);
    assert Conflict(fold, n, names[i]);
    RejectionIsConflict(fold, names, i);
  }

  lemma FoldedClashIsConflict(
    fold: string -> string, names: seq<string>, i: nat,
    exact: set<string>, folded: set<string>, paths: map<string, bool>, foldedPaths: map<string, bool>)
    requires i < |names| && Recorded(fold, names[..i], exact, folded, paths, foldedPaths) && Validated(names[i])
    requires exists p | p in foldedPaths ::
               Clash(p, foldedPaths[p], MemberKey(fold, Normalized(names[i])), IsDirectory(names[i]))
    ensures !NonConflicting(fold, names)
  {
    hide Clash;
    var p :| p in foldedPaths && Clash(p, foldedPaths[p], MemberKey(fold, Normalized(names[i])), IsDirectory(names[i]));
    var n :| n in names[..i] && MemberKey(fold, n) == p;
    assert Conflict(fold, n, names[i]);
    RejectionIsConflict(fold, names, i);
  }

  lemma NoClashExtends(
    fold: string -> string, earlier: seq<string>, name: string,
    exact: set<string>, folded: set<string>, paths: map<string, bool>, foldedPaths: map<string, bool>)
    requires Recorded(fold, earlier, exact, folded, paths, foldedPaths)
    requires NonConflicting(fold, earlier) && Validated(name)
    requires MemberKey(fold, name) !in folded && Normalized(name) !in paths
    requires !exists p | p in foldedPaths ::
               Clash(p, foldedPaths[p], MemberKey(fold, Normalized(name)), IsDirectory(name))
    ensures NonConflicting(fold, earlier + [name])
    ensures Recorded(fold, earlier + [name], exact + {name}, folded + {MemberKey(fold, name)},
                     paths[Normalized(name) := IsDirectory(name)],
                     foldedPaths[MemberKey(fold, Normalized(name)) := IsDirectory(name)])
  {
    hide Clash;
    forall n | n in earlier ensures !Conflict(fold, n, name) {
      assert MemberKey(fold, n) in foldedPaths;
    }
    ExtendNonConflicting(fold, earlier, name);
    RecordedGrows(fold, earlier, name, exact, folded, paths, foldedPaths);
  }

  lemma RecordedGrows(
    fold: string -> string, earlier: seq<string>, name: string,
    exact: set<string>, folded: set<string>, paths: map<string, bool>, foldedPaths: map<string, bool>)
    requires Recorded(fold, earlier, exact, folded, paths, foldedPaths)
    requires MemberKey(fold, name) !in folded && Normalized(name) !in paths
    ensures Recorded(fold, earlier + [name], exact + {name}, folded + {MemberKey(fold, name)},
                     paths[Normalized(name) := IsDirectory(name)],
                     foldedPaths[MemberKey(fold, name) := IsDirectory(name)])
  {
    TableGrows(earlier, PathOf(), paths, name);
    TableGrows(earlier, KeyOf(fold), foldedPaths, name);
    assert PathOf()(name) == Normalized(name) && KeyOf(fold)(name) == MemberKey(fold, name);
    NameSetGrows(earlier, name);
    hide IsTable, PathOf, KeyOf, IsDirectory, MemberKey, Normalized;
  }

  lemma NameSetGrows(earlier: seq<string>, name: string)
    ensures (set n | n in earlier + [name]) == (set n | n in earlier) + {name}
  {
  }

  lemma TableGrows(names: seq<string>, key: string -> string, table: map<string, bool>, name: string)
    requires IsTable(names, key, table) && key(name) !in table
    ensures IsTable(names + [name], key, table[key(name) := IsDirectory(name)])
  {
    hide IsDirectory;
    var grown := table[key(name) := IsDirectory(name)];
    forall k | k in grown ensures exists n :: n in names + [name] && key(n) == k {
      if k == key(name) {
        assert name in names + [name];
      } else {
        var n :| n in names && key(n) == k;
        assert n in names + [name];
      }
    }
  }

  lemma ExtendNonConflicting(fold: string -> string, earlier: seq<string>, name: string)
    requires NonConflicting(fold, earlier) && forall n | n in earlier :: !Conflict(fold, n, name)
    ensures NonConflicting(fold, earlier + [name])
  {
    forall j, k | 0 <= j < k < |earlier| + 1
      ensures !Conflict(fold, (earlier + [name])[j], (earlier + [name])[k])
    {
      assert (earlier + [name])[j] == earlier[j];
    }
  }

  lemma RejectionIsConflict(fold: string -> string, names: seq<string>, i: nat)
    requires i < |names| && exists n | n in names[..i] :: Conflict(fold, n, names[i])
    ensures !NonConflicting(fold, names)
  {
    var n :| n in names[..i] && Conflict(fold, n, names[i]);
    var j :| 0 <= j < i && names[j] == n;
    assert Conflict(fold, names[j], names[i]);
  }

  /** A clash of exact paths is a clash of folded ones, so the exact tests never decide alone. */
  lemma ExactClashFolds(
    fold: string -> string, names: seq<string>, i: nat,
    exact: set<string>, folded: set<string>, paths: map<string, bool>, foldedPaths: map<string, bool>)
    requires Folding(fold)
    requires i < |names| && Recorded(fold, names[..i], exact, folded, paths, foldedPaths)
    requires exists p | p in paths :: Clash(p, paths[p], Normalized(names[i]), IsDirectory(names[i]))
    ensures !NonConflicting(fold, names)
  {
    var name := names[i];
    var p :| p in paths && Clash(p, paths[p], Normalized(name), IsDirectory(name));
    var n :| n in names[..i] && Normalized(n) == p;
    FoldKeepsAncestors(fold, p, Normalized(name));
    FoldKeepsAncestors(fold, Normalized(name), p);
    hide Folding, IsAncestor;
    assert Conflict(fold, n, name);
    RejectionIsConflict(fold, names, i);
  }

  lemma FoldKeepsAncestors(fold: string -> string, p: string, q: string)
    requires Folding(fold)
    ensures IsAncestor(p, q) ==> IsAncestor(fold(p), fold(q))
  {
    if IsAncestor(p, q) {
      assert q == p + "/" + q[|p| + 1..];
    }
  }

  // ---------- the file tree ----------

  datatype Node = File | Directory(entries: map<string, Node>)

  /** What lies at a path: Some(true) a directory, Some(false) a file. */
  function KindAt(t: Node, path: seq<string>): Option<bool> {
    if path == [] then Some(t.Directory?)
    else if t.File? || path[0] !in t.entries then None
    else KindAt(t.entries[path[0]], path[1..])
  }

  /** Every member lies in the tree at its folded path, with its own kind. */
  ghost predicate Realises(t: Node, fold: string -> string, names: seq<string>) {
    t.Directory? && forall n | n in names :: KindAt(t, Split(MemberKey(fold, n))) == Some(IsDirectory(n))
  }

  ghost predicate DistinctKeys(fold: string -> string, names: seq<string>) {
    forall j, k | 0 <= j < k < |names| :: MemberKey(fold, names[j]) != MemberKey(fold, names[k])
  }

  /** A tree with one more member, creating the directories above it. */
  function Insert(t: Node, path: seq<string>, directory: bool): (u: Node)
    requires t.Directory? && path != []
    ensures u.Directory?
    decreases |path|
  {
    var below := if path[0] in t.entries && t.entries[path[0]].Directory? then t.entries[path[0]] else Directory(map[]);
    if |path| > 1 then t.(entries := t.entries[path[0] := Insert(below, path[1..], directory)])
    else t.(entries := t.entries[path[0] := if directory then below else File])
  }

  lemma {:induction false} InsertPlaces(t: Node, path: seq<string>, directory: bool)
    requires t.Directory? && path != []
    ensures KindAt(Insert(t, path, directory), path) == Some(directory)
    decreases |path|
  {
    if |path| > 1 {
      var below :=
        if path[0] in t.entries && t.entries[path[0]].Directory? then t.entries[path[0]] else Directory(map[]);
      InsertPlaces(below, path[1..], directory);
    } else {
      assert path[1..] == [];
    }
  }

  lemma {:induction false} InsertKeeps(t: Node, path: seq<string>, directory: bool, other: seq<string>, kind: bool)
    requires t.Directory? && path != [] && KindAt(t, other) == Some(kind) && other != path
    requires !(ProperPrefix(path, other) && !directory)
    requires !(ProperPrefix(other, path) && !kind)
    ensures KindAt(Insert(t, path, directory), other) == Some(kind)
    decreases |path|
  {
    if other != [] && other[0] == path[0] {
      assert path == [path[0]] + path[1..] && other == [other[0]] + other[1..];
      var child := t.entries[path[0]];
      assert child.File? ==> |other| == 1 && (|path| > 1 ==> ProperPrefix(other, path));
      assert |path| == 1 ==> ProperPrefix(path, other);
      if child.Directory? && |path| > 1 {
        InsertKeeps(child, path[1..], directory, other[1..], kind);
      }
    }
  }

  lemma FilesHaveNothingBelow(t: Node, p: seq<string>, q: seq<string>)
    requires ProperPrefix(p, q) && KindAt(t, q).Some?
    ensures KindAt(t, p) == Some(true)
  {
    if p != [] {
      assert p[0] == q[0] && p[1..] <= q[1..];
      FilesHaveNothingBelow(t.entries[q[0]], p[1..], q[1..]);
    }
  }

  /** The tree of a list of members, one insertion after the other. */
  ghost function TreeOf(fold: string -> string, names: seq<string>): (t: Node)
    ensures t.Directory?
  {
    if names == [] then Directory(map[])
    else
      var n := |names| - 1;
      Insert(TreeOf(fold, names[..n]), Split(MemberKey(fold, names[n])), IsDirectory(names[n]))
  }

  lemma {:induction false} TreeOfRealises(fold: string -> string, names: seq<string>)
    requires NonConflicting(fold, names)
    ensures Realises(TreeOf(fold, names), fold, names)
  {
    if names != [] {
      var n := |names| - 1;
      var last := names[n];
      var path := Split(MemberKey(fold, last));
      TreeOfRealises(fold, names[..n]);
      InsertPlaces(TreeOf(fold, names[..n]), path, IsDirectory(last));
      forall j | 0 <= j < n
        ensures KindAt(TreeOf(fold, names), Split(MemberKey(fold, names[j]))) == Some(IsDirectory(names[j]))
      {
        var other := MemberKey(fold, names[j]);
        assert names[j] in names[..n] && !Conflict(fold, names[j], last);
        AncestorIsProperPrefix(other, MemberKey(fold, last));
        AncestorIsProperPrefix(MemberKey(fold, last), other);
        JoinSplit(other);
        JoinSplit(MemberKey(fold, last));
        InsertKeeps(TreeOf(fold, names[..n]), path, IsDirectory(last), Split(other), IsDirectory(names[j]));
      }
    }
  }

  /** The quadratic loops decide exactly whether the members form a file tree with one entry each. */
  lemma {:induction false} AcceptedExactlyWhenTree(fold: string -> string, names: seq<string>)
    ensures NonConflicting(fold, names) <==> DistinctKeys(fold, names) && exists t :: Realises(t, fold, names)
  {
    if NonConflicting(fold, names) {
      TreeOfRealises(fold, names);
      assert forall j, k | 0 <= j < k < |names| :: !Conflict(fold, names[j], names[k]);
    }
    if t :| DistinctKeys(fold, names) && Realises(t, fold, names) {
      forall j, k | 0 <= j < k < |names| ensures !Conflict(fold, names[j], names[k]) {
        var p, q := MemberKey(fold, names[j]), MemberKey(fold, names[k]);
        assert names[j] in names && names[k] in names;
        AncestorIsProperPrefix(p, q);
        AncestorIsProperPrefix(q, p);
        if IsAncestor(p, q) {
          FilesHaveNothingBelow(t, Split(p), Split(q));
        }
        if IsAncestor(q, p) {
          FilesHaveNothingBelow(t, Split(q), Split(p));
        }
      }
    }
  }

  // ---------- order and sublists ----------

  /** Acceptance passes to any repetition-free list drawn from an accepted one, in any order. */
  lemma {:induction false} SublistsAccepted(fold: string -> string, names: seq<string>, chosen: seq<string>)
    requires NonConflicting(fold, names) && NoRepeats(chosen) && forall n | n in chosen :: n in names
    ensures NonConflicting(fold, chosen)
  {
    forall j, k | 0 <= j < k < |chosen| ensures !Conflict(fold, chosen[j], chosen[k]) {
      assert chosen[j] in names && chosen[k] in names;
      var a :| 0 <= a < |names| && names[a] == chosen[j];
      var b :| 0 <= b < |names| && names[b] == chosen[k];
      assert !Conflict(fold, names[if a < b then a else b], names[if a < b then b else a]);
    }
  }

  lemma {:induction false} AcceptanceForgetsOrder(fold: string -> string, names: seq<string>, permuted: seq<string>)
    requires multiset(names) == multiset(permuted)
    ensures NonConflicting(fold, names) <==> NonConflicting(fold, permuted)
  {
    PermutationKeeps(names, permuted);
    if NonConflicting(fold, names) {
      assert forall j, k | 0 <= j < k < |names| :: !Conflict(fold, names[j], names[k]);
      SublistsAccepted(fold, names, permuted);
    }
    if NonConflicting(fold, permuted) {
      assert forall j, k | 0 <= j < k < |permuted| :: !Conflict(fold, permuted[j], permuted[k]);
      SublistsAccepted(fold, permuted, names);
    }
  }

  // ---------- the policy ----------

  datatype Limits = Limits(
    maxArchiveBytes: nat,
    maxMembers: nat,
    maxMemberNameBytes: nat,
    maxMemberBytes: nat,
    maxTotalUncompressedBytes: nat,
    maxCompressionRatio: real)

  const DEFAULT_LIMITS := Limits(64 * 1024 * 1024, 1024, 1024, 256 * 1024 * 1024, 512 * 1024 * 1024, 100.0)
  const ABSOLUTE_LIMITS :=
    Limits(256 * 1024 * 1024, 10_000, 4096, 512 * 1024 * 1024, 1024 * 1024 * 1024, 10_000.0)

  /** A value a caller gives for a limit. Unusable: not a number, or not a finite one. */
  datatype Given = Number(value: real) | Unusable

  /** The limits a caller gives; None stands for one left to its default. */
  datatype GivenLimits = GivenLimits(
    maxArchiveBytes: Option<Given>,
    maxMembers: Option<Given>,
    maxMemberNameBytes: Option<Given>,
    maxMemberBytes: Option<Given>,
    maxTotalUncompressedBytes: Option<Given>,
    maxCompressionRatio: Option<Given>)

  /** A given limit, or the default, if it is a positive safe integer within the cap. */
  function SnapshotCount(given: Option<Given>, default: nat, cap: nat): Option<nat> {
    if given.None? then if 0 < default <= cap && default <= MAX_SAFE_INTEGER then Some(default) else None
    else if given.value.Unusable? || given.value.value != given.value.value.Floor as real then None
    else
      var n := given.value.value.Floor;
      if 0 < n <= cap && n <= MAX_SAFE_INTEGER then Some(n) else None
  }

  function SnapshotRatio(given: Option<Given>): Option<real> {
    if given.None? then Some(DEFAULT_LIMITS.maxCompressionRatio)
    else if given.value.Unusable? || !(0.0 < given.value.value <= ABSOLUTE_LIMITS.maxCompressionRatio) then None
    else Some(given.value.value)
  }

  /** The limits in force, or None when one of them is refused. */
  function SnapshotLimits(given: GivenLimits): Option<Limits> {
    var d, cap := DEFAULT_LIMITS, ABSOLUTE_LIMITS;
    var archive := SnapshotCount(given.maxArchiveBytes, d.maxArchiveBytes, cap.maxArchiveBytes);
    var members := SnapshotCount(given.maxMembers, d.maxMembers, cap.maxMembers);
    var name := SnapshotCount(given.maxMemberNameBytes, d.maxMemberNameBytes, cap.maxMemberNameBytes);
    var member := SnapshotCount(given.maxMemberBytes, d.maxMemberBytes, cap.maxMemberBytes);
    var total :=
      SnapshotCount(given.maxTotalUncompressedBytes, d.maxTotalUncompressedBytes, cap.maxTotalUncompressedBytes);
    var ratio := SnapshotRatio(given.maxCompressionRatio);
    if archive.None? || members.None? || name.None? || member.None? || total.None? || ratio.None? then None
    else Some(Limits(archive.value, members.value, name.value, member.value, total.value, ratio.value))
  }

  /** Every limit is positive and within its cap. */
  predicate WithinCaps(l: Limits) {
    && 0 < l.maxArchiveBytes <= 268_435_456
    && 0 < l.maxMembers <= 10_000
    && 0 < l.maxMemberNameBytes <= 4_096
    && 0 < l.maxMemberBytes <= 536_870_912
    && 0 < l.maxTotalUncompressedBytes <= 1_073_741_824
    && 0.0 < l.maxCompressionRatio <= 10_000.0
  }

  predicate Means(given: Option<Given>, default: real, limit: real) {
    given == Some(Number(limit)) || (given.None? && limit == default)
  }

  /** These are the limits the caller means: each as given, or its default. */
  predicate MeansLimits(given: GivenLimits, l: Limits) {
    && Means(given.maxArchiveBytes, 67_108_864.0, l.maxArchiveBytes as real)
    && Means(given.maxMembers, 1_024.0, l.maxMembers as real)
    && Means(given.maxMemberNameBytes, 1_024.0, l.maxMemberNameBytes as real)
    && Means(given.maxMemberBytes, 268_435_456.0, l.maxMemberBytes as real)
    && Means(given.maxTotalUncompressedBytes, 536_870_912.0, l.maxTotalUncompressedBytes as real)
    && Means(given.maxCompressionRatio, 100.0, l.maxCompressionRatio)
  }

  lemma {:induction false} CountMeant(given: Option<Given>, default: nat, cap: nat, n: nat)
    requires 0 < default <= cap <= MAX_SAFE_INTEGER
    ensures SnapshotCount(given, default, cap) == Some(n) <==> 0 < n <= cap && Means(given, default as real, n as real)
  {
    assert (n as real).Floor == n;
  }

  /** The limits in force are the ones meant, if they are whole, positive and within their caps. */
  lemma {:induction false} LimitsMeant(given: GivenLimits, l: Limits)
    ensures SnapshotLimits(given) == Some(l) <==> WithinCaps(l) && MeansLimits(given, l)
  {
    var d, cap := DEFAULT_LIMITS, ABSOLUTE_LIMITS;
    CountMeant(given.maxArchiveBytes, d.maxArchiveBytes, cap.maxArchiveBytes, l.maxArchiveBytes);
    CountMeant(given.maxMembers, d.maxMembers, cap.maxMembers, l.maxMembers);
    CountMeant(given.maxMemberNameBytes, d.maxMemberNameBytes, cap.maxMemberNameBytes, l.maxMemberNameBytes);
    CountMeant(given.maxMemberBytes, d.maxMemberBytes, cap.maxMemberBytes, l.maxMemberBytes);
    CountMeant(given.maxTotalUncompressedBytes, d.maxTotalUncompressedBytes, cap.maxTotalUncompressedBytes,
               l.maxTotalUncompressedBytes);
    hide SnapshotCount;
  }

  datatype Policy = Policy(allowed: seq<string>, required: seq<string>, limits: Limits)

  datatype Member = Member(name: string, directory: bool, compressedBytes: int, uncompressedBytes: int)

  /** What the snapshot promises of every policy it returns. */
  ghost predicate IsPolicy(fold: string -> string, p: Policy) {
    && (forall n | n in p.allowed :: Validated(n))
    && NonConflicting(fold, p.allowed)
    && (forall n | n in p.required :: n in p.allowed)
    && WithinCaps(p.limits)
  }

  method SnapshotPolicy(
    fold: string -> string, allowed: seq<string>, required: Option<seq<string>>, given: GivenLimits)
    returns (r: Option<Policy>)
    requires Folding(fold)
    ensures var asked, meant := if required.None? then allowed else required.value, SnapshotLimits(given);
            r == if && allowed != []
                    && meant.Some?
                    && (forall n | n in allowed + asked ::
                          IsMemberName(n, IsDirectory(n)) && Utf8Length(n) <= meant.value.maxMemberNameBytes)
                    && NonConflicting(fold, allowed)
                    && NoRepeats(asked)
                    && (forall n | n in asked :: n in allowed)
                 then Some(Policy(allowed, asked, meant.value)) else None
    ensures r.Some? ==> IsPolicy(fold, r.value) && MeansLimits(given, r.value.limits)
  {
    hide SnapshotLimits, WithinCaps, MeansLimits, Folding, Utf8Length, IsMemberName, NonConflicting, NoRepeats,
         IsDirectory, Validated;
    if |allowed| == 0 { return None; }
    var snapshot := SnapshotLimits(given);
    if snapshot.None? { return None; }
    var limits := snapshot.value;
    LimitsMeant(given, limits);
    if exists n | n in allowed :: !ValidateMemberName(n, IsDirectory(n), limits.maxMemberNameBytes) { return None; }
    forall n | n in allowed ensures Validated(n) { MemberNamesAreValidated(n, IsDirectory(n)); }
    var allowedAgree := AssertUniqueAndNonConflicting(fold, allowed);
    if !allowedAgree { return None; }
    var asked := if required.None? then allowed else required.value;
    if exists n | n in asked :: !ValidateMemberName(n, IsDirectory(n), limits.maxMemberNameBytes) { return None; }
    forall n | n in asked ensures Validated(n) { MemberNamesAreValidated(n, IsDirectory(n)); }
    var askedAgree := AssertUniqueAndNonConflicting(fold, asked);
    NonConflictingHasNoRepeats(fold, asked);
    if !askedAgree {
      if NoRepeats(asked) && forall n | n in asked :: n in allowed {
        SublistsAccepted(fold, allowed, asked);
      }
      return None;
    }
    if exists n | n in asked :: n !in allowed { return None; }
    r := Some(Policy(allowed, asked, limits));
  }

  lemma NonConflictingHasNoRepeats(fold: string -> string, names: seq<string>)
    ensures NonConflicting(fold, names) ==> NoRepeats(names)
  {
    if NonConflicting(fold, names) {
      forall j, k | 0 <= j < k < |names| ensures names[j] != names[k] {
        assert !Conflict(fold, names[j], names[k]);
      }
    }
  }

  predicate MemberFits(m: Member, p: Policy) {
    && m.name in p.allowed
    && IsSafeCount(m.compressedBytes)
    && 0 <= m.uncompressedBytes <= p.limits.maxMemberBytes
    && IsMemberName(m.name, m.directory)
    && Utf8Length(m.name) <= p.limits.maxMemberNameBytes
    && !IsTooDense(m, p.limits.maxCompressionRatio)
  }

  /** A member that expands from nothing, or by more than the allowed ratio. */
  predicate IsTooDense(m: Member, ratio: real) {
    && m.uncompressedBytes > 0
    && (m.compressedBytes == 0 || m.uncompressedBytes as real / m.compressedBytes as real > ratio)
  }

  /** Too dense is to hold more than the ratio times what the archive stores of it. */
  lemma DensityExactly(m: Member, ratio: real)
    requires m.compressedBytes >= 0 && m.uncompressedBytes >= 0 && ratio > 0.0
    ensures IsTooDense(m, ratio) <==> m.uncompressedBytes as real > ratio * m.compressedBytes as real
  {
    var u, c := m.uncompressedBytes as real, m.compressedBytes as real;
    if m.compressedBytes > 0 {
      assert u / c * c == u;
      Scale(u / c, ratio, c);
    }
  }

  lemma Scale(a: real, b: real, c: real)
    requires c > 0.0
    ensures a > b <==> a * c > b * c
  {
    assert a * c - b * c == (a - b) * c;
  }

  function Total(members: seq<Member>): int {
    if members == [] then 0
    else Total(members[..|members| - 1]) + members[|members| - 1].uncompressedBytes
  }

  function Names(members: seq<Member>): (names: seq<string>)
    ensures |names| == |members|
  {
    seq(|members|, i requires 0 <= i < |members| => members[i].name)
  }

  /** An archive the policy admits. No conflict is named: the allowlist has none and repeats are excluded. */
  ghost predicate Admits(p: Policy, members: seq<Member>) {
    && 0 < |members| <= p.limits.maxMembers
    && (forall m | m in members :: MemberFits(m, p))
    && Total(members) <= p.limits.maxTotalUncompressedBytes
    && NoRepeats(Names(members))
    && (forall n | n in p.required :: n in Names(members))
  }

  method ValidateMembers(fold: string -> string, members: seq<Member>, p: Policy) returns (ok: bool)
    requires Folding(fold) && IsPolicy(fold, p)
    ensures ok <==> Admits(p, members)
  {
    hide Folding, NonConflicting, MemberFits, Total;
    if |members| == 0 || |members| > p.limits.maxMembers { return false; }
    var measured := MeasureMembers(members, p);
    if measured.None? { return false; }
    var names := measured.value;
    forall n | n in names ensures n in p.allowed {
      var i :| 0 <= i < |names| && names[i] == n;
      FittingNameIsAllowed(members[i], p);
    }
    var agree := AssertUniqueAndNonConflicting(fold, names);
    NonConflictingHasNoRepeats(fold, names);
    if !agree {
      if NoRepeats(names) { SublistsAccepted(fold, p.allowed, names); }
      return false;
    }
    if exists n | n in p.required :: n !in names { return false; }
    return true;
  }

  lemma FittingNameIsAllowed(m: Member, p: Policy)
    requires MemberFits(m, p)
    ensures m.name in p.allowed
  {
  }

  /** The loop over the members: their metadata, their running total and their names. */
  method MeasureMembers(members: seq<Member>, p: Policy) returns (r: Option<seq<string>>)
    ensures r == if && (forall m | m in members :: MemberFits(m, p))
                    && Total(members) <= p.limits.maxTotalUncompressedBytes
                 then Some(Names(members)) else None
  {
    hide MemberFits, Total, Names;
    var names: seq<string> := [];
    var totalUncompressedBytes := 0;
    NothingMeasured(members);
    for i := 0 to |members|
      invariant forall m | m in members[..i] :: MemberFits(m, p)
      invariant totalUncompressedBytes == Total(members[..i]) <= p.limits.maxTotalUncompressedBytes
      invariant names == Names(members[..i])
    {
      var m := members[i];
      assert m in members;
      assert members[..i + 1] == members[..i] + [m];
      OneMoreMeasured(members, i);
      var fits := MeasureOne(m, p);
      if !fits { return None; }
      totalUncompressedBytes := totalUncompressedBytes + m.uncompressedBytes;
      if totalUncompressedBytes > p.limits.maxTotalUncompressedBytes {
        if forall o | o in members :: MemberFits(o, p) { TotalGrows(members, p, i + 1); }
        return None;
      }
      names := names + [m.name];
    }
    assert members[..|members|] == members;
    return Some(names);
  }

  method MeasureOne(m: Member, p: Policy) returns (ok: bool)
    ensures ok == MemberFits(m, p)
  {
    hide IsMemberName, IsTooDense, Utf8Length;
    if m.name !in p.allowed || !IsSafeCount(m.compressedBytes) || m.uncompressedBytes < 0
      || m.uncompressedBytes > p.limits.maxMemberBytes { return false; }
    if !ValidateMemberName(m.name, m.directory, p.limits.maxMemberNameBytes) { return false; }
    if IsTooDense(m, p.limits.maxCompressionRatio) { return false; }
    return true;
  }

  lemma NothingMeasured(members: seq<Member>)
    ensures Total(members[..0]) == 0 && Names(members[..0]) == []
  {
  }

  lemma OneMoreMeasured(members: seq<Member>, i: nat)
    requires i < |members|
    ensures Total(members[..i + 1]) == Total(members[..i]) + members[i].uncompressedBytes
    ensures Names(members[..i + 1]) == Names(members[..i]) + [members[i].name]
  {
    assert members[..i + 1][..i] == members[..i];
  }

  lemma {:induction false} TotalGrows(members: seq<Member>, p: Policy, i: nat)
    requires i <= |members| && forall m | m in members :: MemberFits(m, p)
    ensures Total(members[..i]) <= Total(members)
    decreases |members| - i
  {
    if i == |members| {
      assert members[..i] == members;
    } else {
      TotalGrows(members, p, i + 1);
      assert members[..i + 1][..i] == members[..i];
      assert members[i] in members && MemberFits(members[i], p);
    }
  }

  // ---------- implicit directories ----------

  method ImplicitDirectories(members: seq<Member>) returns (directories: set<string>)
    ensures forall d :: d in directories <==> exists m | m in members :: !m.directory && IsAncestor(d, m.name)
  {
    directories := {};
    for i := 0 to |members|
      invariant forall d :: d in directories <==> exists m | m in members[..i] :: !m.directory && IsAncestor(d, m.name)
    {
      var m := members[i];
      assert members[..i + 1] == members[..i] + [m];
      if m.directory { continue; }
      var segments := Split(m.name);
      segments := segments[..|segments| - 1];
      ghost var before := directories;
      for index := 1 to |segments| + 1
        invariant forall d :: d in directories <==>
                    d in before || exists k | 1 <= k < index :: d == Join(Split(m.name)[..k])
      {
        assert segments[..index] == Split(m.name)[..index];
        directories := directories + {Join(segments[..index])};
      }
      forall d ensures IsAncestor(d, m.name) <==> exists k | 1 <= k <= |segments| :: d == Join(Split(m.name)[..k]) {
        AncestorsAreSlices(d, m.name);
      }
    }
    assert members[..|members|] == members;
  }

  /** The proper ancestors of a path are the joins of its nonempty proper segment prefixes. */
  lemma {:induction false} AncestorsAreSlices(d: string, name: string)
    ensures IsAncestor(d, name) <==> exists k | 1 <= k < |Split(name)| :: d == Join(Split(name)[..k])
  {
    var parts := Split(name);
    if IsAncestor(d, name) {
      AncestorIsProperPrefix(d, name);
      JoinSplit(d);
      assert parts[..|Split(d)|] == Split(d);
    }
    forall k | 1 <= k < |parts| ensures IsAncestor(Join(parts[..k]), name) {
      assert parts == parts[..k] + parts[k..];
      JoinConcat(parts[..k], parts[k..]);
      JoinSplit(name);
    }
  }

  /**
    Of an accepted list no file is an implicit directory, not even up to case, and each of them is a directory of
    every tree.
   */
  lemma {:induction false} ImplicitDirectoriesAreDirectories(
    fold: string -> string, names: seq<string>, file: string, d: string, t: Node)
    requires Folding(fold) && NonConflicting(fold, names) && Realises(t, fold, names)
    requires file in names && !IsDirectory(file) && IsAncestor(d, file)
    ensures forall other | other in names && !IsDirectory(other) :: fold(d) != MemberKey(fold, other)
    ensures KindAt(t, Split(fold(d))) == Some(true)
  {
    FoldKeepsAncestors(fold, d, file);
    AncestorIsProperPrefix(fold(d), fold(file));
    FilesHaveNothingBelow(t, Split(fold(d)), Split(fold(file)));
  }
}
