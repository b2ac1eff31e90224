/** Enumeration of the interfaces to observe: the entries of /sys/class/net/
    that are symbolic links to Ethernet devices (`type` file "1") whose
    carrier is up (`carrier` file "1"). The directory listing and the files
    are inputs: the operating system is not part of this model. */
module Interfaces {

  const InterfaceDirectory := "/sys/class/net/"

  /** `d_type` value of a symbolic link (DT_LNK). */
  const DtLnk := 10

  /** Size of the buffer `readlink` fills. */
  const LinkBufferSize := 128

  /** One `struct dirent` as `readdir` returns it, with the target of the
      link for the `readlink` call. */
  datatype DirEntry = DirEntry(name: string, dType: nat, linkTarget: string)

  /** The result of `opendir`: it fails, or lists the entries in order. */
  datatype DirListing = OpenFailed | Opened(entries: seq<DirEntry>)

  /** The readable files: path to whole contents. A path that is absent
      cannot be opened. */
  type Files = map<string, string>

  /** What `getline` stores: the characters up to, not including, the
      first newline, or the whole text when there is none. */
  function FirstLine(text: string): (line: string)
    ensures '\n' !in line
    ensures line <= text
    ensures |line| < |text| ==> text[|line|] == '\n'
  {
    if text == [] || text[0] == '\n' then []
    else [text[0]] + FirstLine(text[1..])
  }

  /** The first line of the file at `path`, or "" when it cannot be opened. */
  function GetFirstLineFile(files: Files, path: string): (line: string)
    ensures path !in files ==> line == ""
    ensures path in files ==> line == FirstLine(files[path])
  {
    if path in files then FirstLine(files[path]) else ""
  }

  function TypePath(name: string): string {
    InterfaceDirectory + name + "/type"
  }

  function CarrierPath(name: string): string {
    InterfaceDirectory + name + "/carrier"
  }

  /** The three tests an entry must pass to be observed. */
  predicate Eligible(e: DirEntry, files: Files)
    ensures Eligible(e, files) ==> TypePath(e.name) in files && CarrierPath(e.name) in files
  {
    && e.dType == DtLnk
    && GetFirstLineFile(files, TypePath(e.name)) == "1"
    && GetFirstLineFile(files, CarrierPath(e.name)) == "1"
  }

  /** The 128-byte buffer after `readlink`: the start of the link target,
      the rest still zero (`readlink` does not terminate the string). */
  function LinkBuffer(target: string): (buf: string)
    ensures |buf| == LinkBufferSize
    ensures |target| < LinkBufferSize ==> buf[..|target|] == target
    ensures forall i :: |target| <= i < LinkBufferSize ==> buf[i] == '\0'
    ensures |target| >= LinkBufferSize ==> buf == target[..LinkBufferSize]
  {
    var n := if |target| < LinkBufferSize then |target| else LinkBufferSize;
    target[..n] + seq(LinkBufferSize - n, _ => '\0')
  }

  /** `word` occurs in `buf` starting at position `i`. */
  predicate OccursAt(buf: string, word: string, i: nat) {
    i + |word| <= |buf| && buf[i..i + |word|] == word
  }

  /** `buf.find(word) != npos`: some position of `buf` starts an
      occurrence of `word`. */
  predicate Contains(buf: string, word: string)
    ensures Contains(buf, word) <==> exists i: nat :: OccursAt(buf, word, i)
    decreases |buf|
  {
    if |word| > |buf| then false
    else if buf[..|word|] == word then assert OccursAt(buf, word, 0); true
    else
      OccursShifted(buf, word);
      Contains(buf[1..], word)
  }

  /** When `word` does not start `buf`, it occurs in `buf` exactly when it
      occurs in the tail, one position earlier. */
  lemma OccursShifted(buf: string, word: string)
    requires |buf| > 0 && !OccursAt(buf, word, 0)
    ensures (exists i: nat :: OccursAt(buf[1..], word, i)) <==> (exists i: nat :: OccursAt(buf, word, i))
  {
    if i: nat :| OccursAt(buf[1..], word, i) {
      assert buf[1..][i..i + |word|] == buf[i + 1..i + 1 + |word|];
      assert OccursAt(buf, word, i + 1);
    }
    if i: nat :| OccursAt(buf, word, i) {
      assert i > 0;
      assert buf[1..][i - 1..i - 1 + |word|] == buf[i..i + |word|];
      assert OccursAt(buf[1..], word, i - 1);
    }
  }

  /** The names of the eligible entries, in directory order. */
  function Selected(entries: seq<DirEntry>, files: Files): (names: seq<string>)
    ensures |names| <= |entries|
    ensures |names| == |EligibleIndices(entries, files)|
  {
    if entries == [] then []
    else
      var last := entries[|entries| - 1];
      Selected(entries[..|entries| - 1], files) + (if Eligible(last, files) then [last.name] else [])
  }

  /** The positions of the eligible entries, in increasing order. */
  function EligibleIndices(entries: seq<DirEntry>, files: Files): (ks: seq<nat>)
    ensures forall n :: 0 <= n < |ks| ==> ks[n] < |entries| && Eligible(entries[ks[n]], files)
    ensures forall n, m :: 0 <= n < m < |ks| ==> ks[n] < ks[m]
    ensures forall k :: 0 <= k < |entries| && Eligible(entries[k], files) ==> k in ks
  {
    if entries == [] then []
    else
      var n := |entries| - 1;
      EligibleIndices(entries[..n], files) + (if Eligible(entries[n], files) then [n] else [])
  }

  /** `getInterfaces`: walks the listing and keeps every entry that passes
      the three tests. The link target is read and searched for "virtual",
      but the branch taken on that search is empty, so it keeps nothing out. */
  method GetInterfaces(dir: DirListing, files: Files) returns (interfaces: seq<string>)
    ensures dir.OpenFailed? ==> interfaces == []
    ensures dir.Opened? ==> interfaces == Selected(dir.entries, files)
  {
    interfaces := [];
    if dir.OpenFailed? {
      return;
    }
    var entries := dir.entries;
    var i := 0;
    while i < |entries|
      invariant 0 <= i <= |entries|
      invariant interfaces == Selected(entries[..i], files)
    {
      var e := entries[i];
      if e.dType == DtLnk
         && GetFirstLineFile(files, InterfaceDirectory + e.name + "/type") == "1"
         && GetFirstLineFile(files, InterfaceDirectory + e.name + "/carrier") == "1"
      {
        var buf := LinkBuffer(e.linkTarget);
        interfaces := interfaces + [e.name];
        if !Contains(buf, "virtual") {
        }
      }
      assert entries[..i + 1][..i] == entries[..i];
      i := i + 1;
    }
    assert entries[..i] == entries;
  }

  /** Selection keeps exactly the eligible entries, in directory order. */
  lemma {:induction false} SelectedInDirectoryOrder(entries: seq<DirEntry>, files: Files)
    ensures var ks := EligibleIndices(entries, files);
            |Selected(entries, files)| == |ks|
            && forall n :: 0 <= n < |ks| ==> Selected(entries, files)[n] == entries[ks[n]].name
  {
    if entries != [] {
      var n := |entries| - 1;
      var prefix := entries[..n];
      SelectedInDirectoryOrder(prefix, files);
      var ks, names := EligibleIndices(prefix, files), Selected(prefix, files);
      var extra := if Eligible(entries[n], files) then [entries[n].name] else [];
      assert Selected(entries, files) == names + extra;
      assert EligibleIndices(entries, files) == ks + (if Eligible(entries[n], files) then [n] else []);
      forall m | 0 <= m < |ks| ensures names[m] == entries[ks[m]].name {
        assert prefix[ks[m]] == entries[ks[m]];
      }
    }
  }

  /** A name is selected exactly when some eligible entry carries it. */
  lemma {:induction false} SelectedMembers(entries: seq<DirEntry>, files: Files, x: string)
    ensures x in Selected(entries, files)
            <==> exists k :: 0 <= k < |entries| && entries[k].name == x && Eligible(entries[k], files)
  {
    if entries != [] {
      var n := |entries| - 1;
      SelectedMembers(entries[..n], files, x);
      if x in Selected(entries[..n], files) {
        var k :| 0 <= k < n && entries[..n][k].name == x && Eligible(entries[..n][k], files);
        assert entries[k] == entries[..n][k];
      }
      if exists k :: 0 <= k < |entries| && entries[k].name == x && Eligible(entries[k], files) {
        var k :| 0 <= k < |entries| && entries[k].name == x && Eligible(entries[k], files);
        if k < n {
          assert entries[..n][k] == entries[k];
        }
      }
    }
  }

  /** An entry whose `type` or `carrier` file cannot be opened is left out. */
  lemma UnreadableExcluded(entries: seq<DirEntry>, files: Files, k: nat)
    requires k < |entries|
    requires TypePath(entries[k].name) !in files || CarrierPath(entries[k].name) !in files
    ensures k !in EligibleIndices(entries, files)
  {
  }

  /** The link target has no effect on the selection. */
  lemma {:induction false} LinkTargetIgnored(a: seq<DirEntry>, b: seq<DirEntry>, files: Files)
    requires |a| == |b|
    requires forall k :: 0 <= k < |a| ==> a[k].name == b[k].name && a[k].dType == b[k].dType
    ensures Selected(a, files) == Selected(b, files)
  {
    if a != [] {
      var n := |a| - 1;
      LinkTargetIgnored(a[..n], b[..n], files);
    }
  }
}
