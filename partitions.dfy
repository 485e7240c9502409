/**
 * Partition files of a directory run: which directory entries are input
 * partitions, and the name of the output log each partition is written to.
 * Paths are POSIX paths; the path helpers follow Python's `os.path`
 * (`basename`, `splitext`, two-argument `join`).
 */
module Partitions {
  import opened Wrappers

  /** The extension that marks a directory entry as an input partition. */
  const PARTITION_EXT: string := ".jsonl"
  /** What replaces a partition's extension in the name of its output log. */
  const RESPONSE_SUFFIX: string := "_response.jsonl"

  /** The index of the last occurrence of `c` in `s`, if any. */
  function LastIndexOf(s: string, c: char): (r: Option<nat>)
    ensures r.Some? ==> r.value < |s| && s[r.value] == c && forall k :: r.value < k < |s| ==> s[k] != c
    ensures r.None? ==> c !in s
    decreases |s|
  {
    if s == [] then None
    else if s[|s| - 1] == c then Some(|s| - 1)
    else LastIndexOf(s[..|s| - 1], c)
  }

  /** `c` occurs at index `i` of `s` and nowhere after it. */
  lemma LastIndexOfIs(s: string, c: char, i: nat)
    requires i < |s| && s[i] == c
    requires forall k :: i < k < |s| ==> s[k] != c
    ensures LastIndexOf(s, c) == Some(i)
  {
    assert s[i] in s;
  }

  /** The final component of a path: everything after its last `/`. */
  function Basename(p: string): (b: string)
    ensures '/' !in b
    ensures |b| <= |p| && b == p[|p| - |b|..]
    ensures |b| < |p| ==> p[|p| - |b| - 1] == '/'
  {
    match LastIndexOf(p, '/')
    case None => p
    case Some(i) => p[i + 1..]
  }

  /** Every character of `s` is a dot. */
  predicate AllDots(s: string) {
    forall k :: 0 <= k < |s| ==> s[k] == '.'
  }

  /**
   * The root `splitext` gives for a path without `/`: the name up to its last
   * dot, unless every character before that dot is a dot (a leading-dot name
   * such as `.jsonl` has no extension), and the whole name otherwise.
   */
  function Stem(name: string): (root: string)
    ensures root <= name
    ensures root == name || (name[|root|] == '.' && '.' !in name[|root| + 1..] && !AllDots(root))
    ensures root == name ==>
      forall d :: 0 <= d < |name| && name[d] == '.' && '.' !in name[d + 1..] ==> AllDots(name[..d])
  {
    match LastIndexOf(name, '.')
    case None => name
    case Some(d) =>
      if AllDots(name[..d]) then name
      else
        assert forall k :: d + 1 <= k < |name| ==> name[k] == name[d + 1..][k - d - 1];
        name[..d]
  }

  /** Two-argument `os.path.join`: an absolute second part replaces the first, otherwise one `/` separates them. */
  function Join(dir: string, name: string): (p: string)
    ensures |name| <= |p|
    ensures |name| > 0 && name[0] == '/' ==> p == name
    ensures !(|name| > 0 && name[0] == '/') ==> p[|p| - |name|..] == name
    ensures !(|name| > 0 && name[0] == '/') ==>
      dir <= p && |dir| + |name| <= |p| <= |dir| + 1 + |name| && (|p| == |dir| + 1 + |name| ==> p[|dir|] == '/')
    ensures !(|name| > 0 && name[0] == '/') ==> (|p| == |dir| + 1 + |name| <==> dir != [] && dir[|dir| - 1] != '/')
  {
    if |name| > 0 && name[0] == '/' then name
    else if dir == [] || dir[|dir| - 1] == '/' then dir + name
    else dir + "/" + name
  }

  /** `s` ends with `suffix`, as `str.endswith`. */
  predicate EndsWith(s: string, suffix: string) {
    |suffix| <= |s| && s[|s| - |suffix|..] == suffix
  }

  /** The name of the output log of a prompt file: its stem followed by `_response.jsonl`. */
  function OutputName(promptFile: string): (r: string)
    ensures '/' !in r
    ensures EndsWith(r, RESPONSE_SUFFIX)
  {
    var base := Basename(promptFile);
    var stem := Stem(base);
    assert '/' !in RESPONSE_SUFFIX;
    PrefixAvoids(stem, base, '/');
    EndsWithAppended(stem, RESPONSE_SUFFIX);
    stem + RESPONSE_SUFFIX
  }

  /** A prefix of a string lacks every character the string lacks. */
  lemma PrefixAvoids(prefix: string, s: string, c: char)
    requires prefix <= s && c !in s
    ensures c !in prefix
  {
    assert forall k :: 0 <= k < |prefix| ==> prefix[k] == s[k];
  }

  /** A string ends with whatever was appended to it. */
  lemma EndsWithAppended(s: string, suffix: string)
    ensures EndsWith(s + suffix, suffix)
  {
    assert (s + suffix)[|s|..] == suffix;
  }

  /** Where the output log of a prompt file is written: the response folder joined with its output name. */
  function OutputPath(responseFolder: string, promptFile: string): (p: string)
    ensures Basename(p) == OutputName(promptFile)
    ensures responseFolder <= p
    ensures |responseFolder| + |OutputName(promptFile)| <= |p| <= |responseFolder| + 1 + |OutputName(promptFile)|
  {
    BasenameOfJoin(responseFolder, OutputName(promptFile));
    Join(responseFolder, OutputName(promptFile))
  }

  /** The partition files of a directory listing: the entries ending in `.jsonl`, joined to the directory, in listing order. */
  function SelectPartitions(folder: string, names: seq<string>): (paths: seq<string>)
    ensures |paths| <= |names|
    ensures forall n :: n in names && EndsWith(n, PARTITION_EXT) ==> Join(folder, n) in paths
    ensures forall p :: p in paths ==> exists n :: n in names && EndsWith(n, PARTITION_EXT) && p == Join(folder, n)
    decreases |names|
  {
    if names == [] then []
    else
      var rest := SelectPartitions(folder, names[1..]);
      assert forall n :: n in names[1..] ==> n in names;
      if EndsWith(names[0], PARTITION_EXT) then [Join(folder, names[0])] + rest else rest
  }

  /** Joining a directory and a name without `/` and taking the basename gives the name back. */
  lemma BasenameOfJoin(dir: string, name: string)
    requires '/' !in name
    ensures Basename(Join(dir, name)) == name
  {
    var p := Join(dir, name);
    if dir == [] {
      assert p == name;
      assert LastIndexOf(p, '/').None?;
    } else if dir[|dir| - 1] == '/' {
      assert p == dir + name;
      LastIndexOfIs(p, '/', |dir| - 1);
      assert p[|dir|..] == name;
    } else {
      assert p == dir + "/" + name;
      LastIndexOfIs(p, '/', |dir|);
      assert p[|dir| + 1..] == name;
    }
  }

  /** Where the last dot is known, `Stem` cuts there unless only dots precede it. */
  lemma StemAt(name: string, d: nat)
    requires d < |name| && name[d] == '.'
    requires forall k :: d < k < |name| ==> name[k] != '.'
    ensures Stem(name) == if AllDots(name[..d]) then name else name[..d]
  {
    LastIndexOfIs(name, '.', d);
  }

  /** The only dot of `<s>.jsonl` after `s` is the one that starts the extension. */
  lemma ExtensionDot(s: string)
    ensures var name := s + PARTITION_EXT;
      name[|s|] == '.' && forall k :: |s| < k < |name| ==> name[k] != '.'
  {
    var name := s + PARTITION_EXT;
    forall k | |s| < k < |name| ensures name[k] != '.' {
      assert name[k] == PARTITION_EXT[k - |s|];
    }
  }

  /**
   * A partition `<s>.jsonl` listed in a directory is answered in
   * `<s>_response.jsonl`, provided `s` has a character other than a dot.
   */
  lemma PartitionLogName(dir: string, s: string)
    requires '/' !in s && !AllDots(s)
    ensures OutputName(Join(dir, s + PARTITION_EXT)) == s + RESPONSE_SUFFIX
  {
    var name := s + PARTITION_EXT;
    BasenameOfJoin(dir, name);
    ExtensionDot(s);
    StemAt(name, |s|);
    assert name[..|s|] == s;
  }

  /**
   * Per-partition independence: two different partitions of one directory
   * whose names before `.jsonl` are not made of dots only write to different
   * output logs.
   */
  lemma DistinctPartitionsDistinctLogs(dir: string, n1: string, n2: string)
    requires '/' !in n1 && '/' !in n2
    requires EndsWith(n1, PARTITION_EXT) && EndsWith(n2, PARTITION_EXT)
    requires !AllDots(n1[..|n1| - |PARTITION_EXT|]) && !AllDots(n2[..|n2| - |PARTITION_EXT|])
    requires n1 != n2
    ensures OutputName(Join(dir, n1)) != OutputName(Join(dir, n2))
  {
    var s1, s2 := n1[..|n1| - |PARTITION_EXT|], n2[..|n2| - |PARTITION_EXT|];
    assert n1 == s1 + PARTITION_EXT && n2 == s2 + PARTITION_EXT;
    PartitionLogName(dir, s1);
    PartitionLogName(dir, s2);
  }

  /**
   * A partition whose name before `.jsonl` is made of dots only (`.jsonl`
   * itself, say) keeps its extension under `splitext`.
   */
  lemma DotOnlyStemKeepsExtension(dir: string, s: string)
    requires '/' !in s && AllDots(s)
    ensures OutputName(Join(dir, s + PARTITION_EXT)) == s + PARTITION_EXT + RESPONSE_SUFFIX
  {
    var name := s + PARTITION_EXT;
    BasenameOfJoin(dir, name);
    ExtensionDot(s);
    StemAt(name, |s|);
    assert name[..|s|] == s;
  }

  /** So the side condition above is needed: the partitions `.jsonl` and `.jsonl.jsonl` share one log. */
  lemma DotOnlyStemsShareLog(dir: string)
    ensures OutputName(Join(dir, PARTITION_EXT)) == OutputName(Join(dir, PARTITION_EXT + PARTITION_EXT))
  {
    assert !AllDots(PARTITION_EXT) by { assert PARTITION_EXT[1] == 'j'; }
    PartitionLogName(dir, PARTITION_EXT);
    DotOnlyStemKeepsExtension(dir, "");
    assert "" + PARTITION_EXT == PARTITION_EXT;
  }
}
