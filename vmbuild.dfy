// util/vm/build.py: the pure helpers of the VM image builder (ISO URLs, OS
// version and architecture guesses, the OVF operating-system ids, the test
// table and the build-directory name) and the loop that picks a free
// network block device.
module VmBuild {
  import opened Wrappers
  import opened Text

  // ------------------------------------------------------------- ISO URLs

  /** 'ubuntu-<version>-<kind>-<arch>.iso'. */
  function IsoName(version: string, kind: string, arch: string): string {
    IsoStem(version, kind, arch) + ".iso"
  }

  function IsoStem(version: string, kind: string, arch: string): string {
    "ubuntu-" + version + "-" + kind + "-" + arch
  }

  /** serverURL(version, arch). */
  function ServerUrl(version: string, arch: string): string {
    ServerDir(version) + "/" + IsoName(version, "server", arch)
  }

  function ServerDir(version: string): string {
    "http://cdimage.ubuntu.com/ubuntu/releases/" + version + "/release"
  }

  /** legacyURL(version, arch). */
  function LegacyUrl(version: string, arch: string): string {
    LegacyDir(version) + "/" + IsoName(version, "legacy-server", arch)
  }

  function LegacyDir(version: string): string {
    "http://cdimage.ubuntu.com/ubuntu-legacy-server/releases/" + version + "/release"
  }

  /** isoURLs: the build flavours and the ISO each installs from. */
  const IsoUrls: map<string, string> := map[
    "precise64server" := "http://mirrors.kernel.org/ubuntu-releases/12.04/ubuntu-12.04.5-server-amd64.iso",
    "trusty32server" := "http://mirrors.kernel.org/ubuntu-releases/14.04/ubuntu-14.04.4-server-i386.iso",
    "trusty64server" := "http://mirrors.kernel.org/ubuntu-releases/14.04/ubuntu-14.04.4-server-amd64.iso",
    "xenial32server" := "http://mirrors.kernel.org/ubuntu-releases/16.04/ubuntu-16.04.6-server-i386.iso",
    "xenial64server" := "http://mirrors.kernel.org/ubuntu-releases/16.04/ubuntu-16.04.7-server-amd64.iso",
    "bionic64server" := ServerUrl("18.04.5", "amd64"),
    "focal64server" := LegacyUrl("20.04.1", "amd64")
  ]

  // ------------------------------------------------------ path helpers

  /** os.path.basename: the text after the last '/'. */
  function Basename(p: string): (r: string)
    ensures '/' !in r && EndsWith(p, r)
    ensures r == p || (|r| < |p| && p[|p| - |r| - 1] == '/')
  {
    match LastIndex(p, '/')
      case None => p
      case Some(i) =>
        var t := p[i + 1..];
        assert forall k :: 0 <= k < |t| ==> t[k] == p[i + 1 + k];
        t
  }

  /** The position of the last c in s (str.rfind). */
  function LastIndex(s: string, c: char): (r: Option<nat>)
    ensures r.Some? ==> r.value < |s| && s[r.value] == c && forall k :: r.value < k < |s| ==> s[k] != c
    ensures r.None? ==> c !in s
  {
    if s == [] then None
    else if s[|s| - 1] == c then Some(|s| - 1)
    else
      var r := LastIndex(s[..|s| - 1], c);
      assert forall k :: 0 <= k < |s| - 1 ==> s[..|s| - 1][k] == s[k];
      r
  }

  /**
   * os.path.splitext(name)[0] for a name without '/': the text before the
   * last '.', unless only dots come before it (a name like '.bashrc' has no
   * extension).
   */
  function StripExt(name: string): string {
    match LastIndex(name, '.')
      case None => name
      case Some(d) => if exists j :: 0 <= j < d && name[j] != '.' then name[..d] else name
  }

  /** OSVersion(flavor): the basename of the flavour's ISO URL without its extension; 'unknown' for an unknown flavour. */
  function OSVersion(flavor: string): string {
    StripExt(Basename(if flavor in IsoUrls then IsoUrls[flavor] else "unknown"))
  }

  /** The basename of a path is what follows its last '/'. */
  lemma BasenameAfter(dir: string, name: string)
    requires '/' !in name
    ensures Basename(dir + "/" + name) == name
  {
    var p := dir + "/" + name;
    assert p[|dir|] == '/';
    assert forall k :: |dir| < k < |p| ==> p[k] == name[k - |dir| - 1];
    assert LastIndex(p, '/') == Some(|dir|);
    assert p[|dir| + 1..] == name;
  }

  /** A stem that does not start with '.' loses exactly its extension. */
  lemma StripExtOf(stem: string, ext: string)
    requires stem != [] && stem[0] != '.' && '.' !in ext
    ensures StripExt(stem + "." + ext) == stem
  {
    var n := stem + "." + ext;
    var d := |stem|;
    assert n[d] == '.';
    assert forall k :: d < k < |n| ==> n[k] == ext[k - d - 1];
    assert n[0] == stem[0];
    assert n[..d] == stem;
  }

  /** A name without '/' is its own basename. */
  lemma NoSlash(s: string)
    requires '/' !in s
    ensures Basename(s) == s
  {
  }

  /** A name with neither '/' nor '.' is its own version string. */
  lemma PlainVersion(s: string)
    requires '/' !in s && '.' !in s
    ensures StripExt(Basename(s)) == s
  {
    NoSlash(s);
  }

  /** The version string of a serverURL ISO is the ISO file name without '.iso'. */
  lemma ServerUrlVersion(version: string, arch: string)
    requires '/' !in version && '/' !in arch
    ensures StripExt(Basename(ServerUrl(version, arch))) == IsoStem(version, "server", arch)
  {
    UrlVersion(ServerDir(version), version, "server", arch);
  }

  /** Likewise for legacyURL. */
  lemma LegacyUrlVersion(version: string, arch: string)
    requires '/' !in version && '/' !in arch
    ensures StripExt(Basename(LegacyUrl(version, arch))) == IsoStem(version, "legacy-server", arch)
  {
    UrlVersion(LegacyDir(version), version, "legacy-server", arch);
  }

  lemma UrlVersion(dir: string, version: string, kind: string, arch: string)
    requires '/' !in version && '/' !in kind && '/' !in arch
    ensures StripExt(Basename(dir + "/" + IsoName(version, kind, arch))) == IsoStem(version, kind, arch)
  {
    IsoNameShape(version, kind, arch);
    var stem := IsoStem(version, kind, arch);
    BasenameAfter(dir, stem + "." + "iso");
    StripExtOf(stem, "iso");
  }

  lemma IsoNameShape(version: string, kind: string, arch: string)
    requires '/' !in version && '/' !in kind && '/' !in arch
    ensures IsoName(version, kind, arch) == IsoStem(version, kind, arch) + "." + "iso"
    ensures '/' !in IsoName(version, kind, arch)
    ensures IsoStem(version, kind, arch) != [] && IsoStem(version, kind, arch)[0] == 'u'
  {
    var stem := IsoStem(version, kind, arch);
    var n := IsoName(version, kind, arch);
    assert stem[0] == 'u';
    assert "." + "iso" == ".iso";
    assert forall k :: 0 <= k < |n| ==> n[k] in "ubuntu-" || n[k] in version || n[k] == '-' || n[k] in kind || n[k] in arch || n[k] in ".iso";
  }

  /** isoURLs.get(flavor, 'unknown'): an unknown flavour has version 'unknown'. */
  lemma OSVersionUnknown(flavor: string)
    requires flavor !in IsoUrls
    ensures OSVersion(flavor) == "unknown"
  {
    var u := "unknown";
    assert |u| == 7 && u[0] == 'u' && u[1] == 'n' && u[2] == 'k' && u[3] == 'n' && u[4] == 'o' && u[5] == 'w' && u[6] == 'n';
    PlainVersion(u);
  }

  // --------------------------------------------------------- architecture

  /**
   * archFor(filepath): from the basename, x86_64 for 'amd64' or 'x86_64';
   * else i386 for 'i386', '32' or 'x86'; else x86_64 for '64'; else exit 1.
   */
  function ArchFor(filepath: string): (r: Result<string, Exc>)
    ensures r.Ok? ==> r.value == "i386" || r.value == "x86_64"
    ensures r.Err? ==> r.error == Exit(1)
  {
    var name := Basename(filepath);
    if Contains(name, "amd64") || Contains(name, "x86_64") then Ok("x86_64")
    else if Contains(name, "i386") || Contains(name, "32") || Contains(name, "x86") then Ok("i386")
    else if Contains(name, "64") then Ok("x86_64")
    else Err(Exit(1))
  }

  /** Only the basename counts: the directories of the path never change the guess. */
  lemma ArchForBasename(dir: string, name: string)
    requires '/' !in name
    ensures ArchFor(dir + "/" + name) == ArchFor(name)
  {
    BasenameAfter(dir, name);
    NoSlash(name);
  }

  /** 'amd64' wins even over a '32' in the same name. */
  lemma ArchForAmd64(a: string, b: string)
    requires '/' !in a && '/' !in b
    ensures ArchFor(a + "amd64" + b) == Ok("x86_64")
  {
    var name := a + "amd64" + b;
    assert '/' !in name;
    NoSlash(name);
    assert name[|a|..|a| + 5] == "amd64";
    assert IsInfixAt(name, "amd64", |a|);
  }

  /** A character of t that s lacks keeps t out of s. */
  lemma MissingChar(s: string, t: string, k: nat)
    requires k < |t| && t[k] !in s
    ensures !Contains(s, t)
  {
    forall i: nat | i <= |s| ensures !IsInfixAt(s, t, i) {
      if i + |t| <= |s| {
        assert s[i..i + |t|][k] == s[i + k];
      }
    }
  }

  // ----------------------------------------------------------- OVF ids

  /**
   * OVFOSNameID(flavor): Ubuntu names when 'ubuntu' is in the version string,
   * generic Linux names otherwise, the 32- or 64-bit id chosen by archFor of
   * the flavour name; archFor's exit passes through.
   */
  function OVFOSNameID(flavor: string): Result<(string, int), Exc> {
    OvfFor(OSVersion(flavor), ArchFor(flavor))
  }

  /** The OVF (name, id) for a version string and the outcome of archFor. */
  function OvfFor(version: string, arch: Result<string, Exc>): (r: Result<(string, int), Exc>)
    ensures r.Err? <==> arch.Err?
    ensures arch.Err? ==> r.error == arch.error
    ensures r.Ok? ==> (Contains(version, "ubuntu") <==> r.value.1 == 93 || r.value.1 == 94)
    ensures r.Ok? ==> (arch.value == "i386" <==> r.value.1 == 93 || r.value.1 == 36)
  {
    match arch
      case Err(e) => Err(e)
      case Ok(a) =>
        if Contains(version, "ubuntu") then
          Ok(if a == "i386" then ("Ubuntu", 93) else ("Ubuntu 64-bit", 94))
        else
          Ok(if a == "i386" then ("Linux", 36) else ("Linux 64-bit", 101))
  }

  /** An unknown flavour whose name still names an architecture gets the generic Linux ids. */
  lemma OVFUnknown(flavor: string)
    requires flavor !in IsoUrls && ArchFor(flavor).Ok?
    ensures OVFOSNameID(flavor) == Ok(if ArchFor(flavor).value == "i386" then ("Linux", 36) else ("Linux 64-bit", 101))
  {
    OSVersionUnknown(flavor);
    UnknownNotUbuntu();
  }

  lemma UnknownNotUbuntu()
    ensures !Contains("unknown", "ubuntu")
  {
    var u := "unknown";
    assert |u| == 7 && u[0] == 'u' && u[1] == 'n' && u[2] == 'k' && u[3] == 'n' && u[4] == 'o' && u[5] == 'w' && u[6] == 'n';
    assert "ubuntu"[1] == 'b';
    MissingChar(u, "ubuntu", 1);
  }

  /** A name with '64' and none of 'a', 'x' or '3' (so no 'amd64', 'x86_64', 'i386', '32' or 'x86') is x86_64. */
  lemma ArchSixtyFour(name: string, k: nat)
    requires '/' !in name && 'a' !in name && 'x' !in name && '3' !in name
    requires k + 2 <= |name| && name[k] == '6' && name[k + 1] == '4'
    ensures ArchFor(name) == Ok("x86_64")
  {
    NoSlash(name);
    MissingChar(name, "amd64", 0);
    MissingChar(name, "x86_64", 0);
    MissingChar(name, "i386", 1);
    MissingChar(name, "32", 0);
    MissingChar(name, "x86", 0);
    assert name[k..k + 2] == "64";
    assert IsInfixAt(name, "64", k);
  }

  /** The bionic flavour installs Ubuntu 18.04.5 for amd64 and is described as 64-bit Ubuntu. */
  lemma OVFBionic()
    ensures OSVersion("bionic64server") == IsoStem("18.04.5", "server", "amd64")
    ensures OVFOSNameID("bionic64server") == Ok(("Ubuntu 64-bit", 94))
  {
    BionicVersion();
    BionicArch();
  }

  lemma BionicVersion()
    ensures OSVersion("bionic64server") == IsoStem("18.04.5", "server", "amd64")
    ensures Contains(OSVersion("bionic64server"), "ubuntu")
  {
    BionicUrl();
    ServerUrlVersion("18.04.5", "amd64");
    UbuntuStem("18.04.5", "server", "amd64");
  }

  lemma BionicUrl()
    ensures "bionic64server" in IsoUrls && IsoUrls["bionic64server"] == ServerUrl("18.04.5", "amd64")
  {
  }

  /** Every ISO stem starts with 'ubuntu'. */
  lemma UbuntuStem(version: string, kind: string, arch: string)
    ensures Contains(IsoStem(version, kind, arch), "ubuntu")
  {
    var v := IsoStem(version, kind, arch);
    assert v[..6] == "ubuntu";
    assert IsInfixAt(v, "ubuntu", 0);
  }

  lemma BionicArch()
    ensures ArchFor("bionic64server") == Ok("x86_64")
  {
    var f := "bionic64server";
    assert |f| == 14 && f[0] == 'b' && f[1] == 'i' && f[2] == 'o' && f[3] == 'n' && f[4] == 'i' && f[5] == 'c';
    assert f[6] == '6' && f[7] == '4' && f[8] == 's' && f[9] == 'e' && f[10] == 'r' && f[11] == 'v' && f[12] == 'e' && f[13] == 'r';
    ArchSixtyFour(f, 6);
  }

  // -------------------------------------------------------------- attachNBD

  /** The name pgrep -f looks for, and the device it stands for. */
  function Entry(i: nat): string { "nbd" + NatToDec(i) }
  function Device(i: nat): string { "/dev/" + Entry(i) }

  /** `pgrep -f entry` succeeds: some running command line contains the text. */
  predicate Mentioned(procs: seq<string>, entry: string) {
    exists k :: 0 <= k < |procs| && Contains(procs[k], entry)
  }

  /** The first device number from i up to 62 that busy does not rule out. */
  function FirstFree(busy: nat -> bool, i: nat): Option<nat>
    decreases 63 - i
  {
    if i > 62 then None
    else if !busy(i) then Some(i)
    else FirstFree(busy, i + 1)
  }

  /** FirstFree is the least free number in i..62, and None exactly when all are busy. */
  lemma {:induction false} FirstFreeLeast(busy: nat -> bool, i: nat)
    ensures FirstFree(busy, i).Some? ==> var k := FirstFree(busy, i).value;
      i <= k <= 62 && !busy(k) && forall j :: i <= j < k ==> busy(j)
    ensures FirstFree(busy, i).None? <==> forall j :: i <= j <= 62 ==> busy(j)
    decreases 63 - i
  {
    if i <= 62 && busy(i) {
      FirstFreeLeast(busy, i + 1);
    }
  }

  const NbdError: string := "Error: could not find unused /dev/nbdX device"

  /** What attachNBD ends in: the device it attaches, or the exception when nbd1..nbd62 all look busy. */
  function AttachResult(busy: nat -> bool): Result<string, Exc> {
    match FirstFree(busy, 1)
      case Some(k) => Ok(Device(k))
      case None => Err(Raised(NbdError))
  }

  /** The busy test attachNBD applies. */
  function PgrepBusy(procs: seq<string>): nat -> bool {
    (i: nat) => Mentioned(procs, Entry(i))
  }

  // ------------------------------------------------------ os.path.abspath

  /** A component normpath keeps as it is: no '/', and none of '', '.', '..'. */
  predicate PlainComps(cs: seq<string>) {
    forall i :: 0 <= i < |cs| ==> '/' !in cs[i] && cs[i] != "" && cs[i] != "." && cs[i] != ".."
  }

  /** One turn of posixpath.normpath's loop: '' and '.' vanish; '..' drops
      the last component kept, except that it is kept itself at the front of
      a relative path or after another '..', and vanishes at the root. */
  function NormStep(kept: seq<string>, comp: string, absolute: bool): seq<string> {
    if comp == "" || comp == "." then kept
    else if comp != ".." || (!absolute && kept == []) || (kept != [] && kept[|kept| - 1] == "..") then kept + [comp]
    else if kept != [] then kept[..|kept| - 1]
    else kept
  }

  /** The components normpath's loop keeps, one component at a time. */
  function NormComps(comps: seq<string>, absolute: bool): seq<string> {
    if comps == [] then []
    else NormStep(NormComps(comps[..|comps| - 1], absolute), comps[|comps| - 1], absolute)
  }

  /** normpath keeps exactly two leading slashes; one, or three and more, become one. */
  function InitialSlashes(p: string): nat {
    if StartsWith(p, "//") && !StartsWith(p, "///") then 2 else if StartsWith(p, "/") then 1 else 0
  }

  function Slashes(n: nat): string {
    if n == 2 then "//" else if n == 1 then "/" else ""
  }

  /** posixpath.normpath: the leading slashes, then the kept components
      joined by '/', or '.' when that leaves nothing. */
  function NormPath(p: string): string {
    var n := InitialSlashes(p);
    var r := Slashes(n) + Join(NormComps(Split(p, '/'), n > 0), '/');
    if r == [] then "." else r
  }

  /** os.path.join(cwd, p): an absolute p replaces cwd; otherwise a '/' goes
      between them unless cwd is empty or already ends in one. */
  function JoinPath(cwd: string, p: string): string {
    if StartsWith(p, "/") then p
    else if cwd == [] || EndsWith(cwd, "/") then cwd + p
    else cwd + "/" + p
  }

  /** os.path.abspath, with the process's working directory given: a
      relative p is joined to cwd, and the result is normalised. */
  function AbsPath(cwd: string, p: string): string {
    NormPath(JoinPath(cwd, p))
  }

  /** In an absolute path normpath keeps only plain components. */
  lemma {:induction false} NormCompsAbsolute(comps: seq<string>)
    requires forall i :: 0 <= i < |comps| ==> '/' !in comps[i]
    ensures PlainComps(NormComps(comps, true))
  {
    if comps != [] {
      var n := |comps| - 1;
      assert forall i :: 0 <= i < n ==> comps[..n][i] == comps[i];
      NormCompsAbsolute(comps[..n]);
    }
  }

  /** Plain components after any others are all kept. */
  lemma {:induction false} NormCompsAppendPlain(pre: seq<string>, cs: seq<string>, absolute: bool)
    requires PlainComps(cs)
    ensures NormComps(pre + cs, absolute) == NormComps(pre, absolute) + cs
  {
    if cs == [] {
      assert pre + cs == pre;
    } else {
      var n := |cs| - 1;
      assert forall i :: 0 <= i < n ==> cs[..n][i] == cs[i];
      NormCompsAppendPlain(pre, cs[..n], absolute);
      assert (pre + cs)[..|pre + cs| - 1] == pre + cs[..n];
      assert cs == cs[..n] + [cs[n]];
    }
  }

  lemma {:induction false} JoinAppend(a: seq<string>, b: seq<string>, c: char)
    requires a != [] && b != []
    ensures Join(a + b, c) == Join(a, c) + [c] + Join(b, c)
  {
    if |a| == 1 {
      assert (a + b)[1..] == b;
    } else {
      JoinAppend(a[1..], b, c);
      assert (a + b)[1..] == a[1..] + b;
    }
  }

  lemma JoinFirst(cs: seq<string>, c: char)
    requires cs != [] && cs[0] != []
    ensures Join(cs, c) != [] && Join(cs, c)[0] == cs[0][0]
  {
  }

  lemma {:induction false} JoinLast(cs: seq<string>, c: char)
    requires cs != [] && cs[|cs| - 1] != []
    ensures Join(cs, c) != [] && EndsWith(Join(cs, c), [cs[|cs| - 1][|cs[|cs| - 1]| - 1]])
  {
    if |cs| > 1 {
      JoinLast(cs[1..], c);
    }
  }

  /** A path of one slash and plain components is already normal. */
  lemma NormPathOfNormal(cs: seq<string>)
    requires PlainComps(cs) && cs != []
    ensures NormPath("/" + Join(cs, '/')) == "/" + Join(cs, '/')
  {
    var j := Join(cs, '/');
    JoinFirst(cs, '/');
    assert InitialSlashes("/" + j) == 1 by {
      assert ("/" + j)[1] == cs[0][0];
    }
    assert "/" + j == [] + ['/'] + j;
    SplitPrefix([], j, '/');
    SplitJoin(cs, '/');
    assert Split("/" + j, '/') == [""] + cs;
    NormCompsAppendPlain([""], cs, true);
    assert NormComps([""], true) == [] by {
      assert [""][..0] == [];
    }
    assert NormComps(Split("/" + j, '/'), true) == cs;
  }

  /** abspath of an absolute path or against an absolute directory starts
      with a slash (two when the path kept exactly two) followed by plain
      components: every '.', '..' and empty component is gone. */
  lemma AbsPathNormal(cwd: string, p: string) returns (n: nat, cs: seq<string>)
    requires StartsWith(cwd, "/") || StartsWith(p, "/")
    ensures 1 <= n <= 2 && PlainComps(cs)
    ensures AbsPath(cwd, p) == Slashes(n) + Join(cs, '/')
    ensures StartsWith(AbsPath(cwd, p), "/")
  {
    var q := JoinPath(cwd, p);
    assert StartsWith(q, "/") by {
      if !StartsWith(p, "/") {
        assert q[..1] == cwd[..1];
      }
    }
    n := InitialSlashes(q);
    cs := NormComps(Split(q, '/'), true);
    NormCompsAbsolute(Split(q, '/'));
  }

  /** abspath leaves a normal absolute path alone. */
  lemma AbsPathOfAbsolute(cwd: string, cs: seq<string>)
    requires PlainComps(cs) && cs != []
    ensures AbsPath(cwd, "/" + Join(cs, '/')) == "/" + Join(cs, '/')
  {
    NormPathOfNormal(cs);
  }

  /** abspath of a relative path of plain components, in a normal directory,
      is the directory's components followed by the path's. */
  lemma AbsPathOfRelative(dir: seq<string>, cs: seq<string>)
    requires PlainComps(dir) && dir != [] && PlainComps(cs) && cs != []
    ensures AbsPath("/" + Join(dir, '/'), Join(cs, '/')) == "/" + Join(dir + cs, '/')
  {
    var cwd := "/" + Join(dir, '/');
    JoinFirst(cs, '/');
    JoinLast(dir, '/');
    assert !EndsWith(cwd, "/") by {
      assert cwd[|cwd| - 1] == Join(dir, '/')[|Join(dir, '/')| - 1];
    }
    JoinAppend(dir, cs, '/');
    assert JoinPath(cwd, Join(cs, '/')) == "/" + Join(dir + cs, '/');
    assert PlainComps(dir + cs) by {
      forall i | 0 <= i < |dir + cs|
        ensures '/' !in (dir + cs)[i] && (dir + cs)[i] != "" && (dir + cs)[i] != "." && (dir + cs)[i] != ".."
      {
        if i >= |dir| {
          assert (dir + cs)[i] == cs[i - |dir|];
        }
      }
    }
    NormPathOfNormal(dir + cs);
  }

  /**
   * attachNBD(cow, flags): makes cow absolute against the working
   * directory cwd, then picks a device with FindNbd and attaches the image
   * to it with modprobe and qemu-nbd (the commands are returned in the
   * order srun issues them).
   */
  method AttachNbd(procs: seq<string>, cwd: string, cow: string, flags: string) returns (r: Result<string, Exc>, cmds: seq<string>)
    ensures r == AttachResult(PgrepBusy(procs))
    ensures r.Ok? ==> cmds == ["modprobe nbd max-part=64", "qemu-nbd " + flags + " -c " + r.value + " " + AbsPath(cwd, cow)]
    ensures r.Err? ==> cmds == []
  {
    var path := AbsPath(cwd, cow);
    r := FindNbd(procs);
    cmds := if r.Ok? then ["modprobe nbd max-part=64", "qemu-nbd " + flags + " -c " + r.value + " " + path] else [];
  }

  /**
   * attachNBD's loop: tries nbd1..nbd62 in order, skipping any that
   * `pgrep -f` finds mentioned by a running process; NbdError when none
   * is left.
   */
  method FindNbd(procs: seq<string>) returns (r: Result<string, Exc>)
    ensures r == AttachResult(PgrepBusy(procs))
  {
    var i := 1;
    while i < 63
      invariant 1 <= i <= 63
      invariant FirstFree(PgrepBusy(procs), i) == FirstFree(PgrepBusy(procs), 1)
    {
      var entry := "nbd" + NatToDec(i);
      var found := false;
      var k := 0;
      while k < |procs|
        invariant 0 <= k <= |procs|
        invariant found <==> exists m :: 0 <= m < k && Contains(procs[m], entry)
      {
        if Contains(procs[k], entry) {
          found := true;
        }
        k := k + 1;
      }
      if found {
        i := i + 1;
        continue;
      }
      return Ok("/dev/" + entry);
    }
    return Err(Raised(NbdError));
  }

  /** attachNBD's choice is the lowest device no process mentions; it raises only when all 62 are mentioned. */
  lemma AttachLowest(procs: seq<string>) returns (k: nat)
    ensures AttachResult(PgrepBusy(procs)).Ok? ==>
      1 <= k <= 62 && AttachResult(PgrepBusy(procs)).value == Device(k) && !Mentioned(procs, Entry(k)) &&
      forall j :: 1 <= j < k ==> Mentioned(procs, Entry(j))
    ensures AttachResult(PgrepBusy(procs)).Err? <==> forall j :: 1 <= j <= 62 ==> Mentioned(procs, Entry(j))
  {
    var busy := PgrepBusy(procs);
    FirstFreeLeast(busy, 1);
    k := if FirstFree(busy, 1).Some? then FirstFree(busy, 1).value else 0;
    assert forall j :: busy(j) == Mentioned(procs, Entry(j));
  }

  // A process attached to /dev/nbd10 .. /dev/nbd19 has 'nbd1' in its command
  // line, so `pgrep -f nbd1` reports device 1 busy although nothing uses it.

  /** A command line names the device itself: its entry, not followed by another digit. */
  predicate NamesDevice(p: string, e: string) {
    exists pos: nat | pos <= |p| :: IsInfixAt(p, e, pos) && (pos + |e| == |p| || !IsDigit(p[pos + |e|]))
  }

  /** The busy test attachNBD means: some process names the device itself. */
  function ExactBusy(procs: seq<string>): nat -> bool {
    (i: nat) => exists k :: 0 <= k < |procs| && NamesDevice(procs[k], Entry(i))
  }

  /** Device 1 is skipped whenever one of devices 10..19 is in use, though no process names it; the intended test picks it. */
  lemma PgrepShadow(procs: seq<string>, j: nat)
    requires 10 <= j <= 19 && Mentioned(procs, Entry(j)) && !ExactBusy(procs)(1)
    ensures AttachResult(PgrepBusy(procs)) != Ok(Device(1))
    ensures AttachResult(ExactBusy(procs)) == Ok(Device(1))
  {
    assert NatToDec(j) == NatToDec(1) + [DigitChar(j % 10)];
    assert Entry(j) == Entry(1) + [DigitChar(j % 10)];
    var k :| 0 <= k < |procs| && Contains(procs[k], Entry(j));
    var pos: nat :| pos <= |procs[k]| && IsInfixAt(procs[k], Entry(j), pos);
    assert procs[k][pos..pos + |Entry(1)|] == Entry(j)[..|Entry(1)|];
    assert IsInfixAt(procs[k], Entry(1), pos);
    var busy := PgrepBusy(procs);
    assert busy(1);
    FirstFreeLeast(busy, 2);
    var r := FirstFree(busy, 2);
    if r.Some? {
      DeviceNumber(r.value, 1);
    }
  }

  /** Different device numbers name different devices. */
  lemma DeviceNumber(a: nat, b: nat)
    ensures Device(a) == Device(b) <==> a == b
  {
    assert Device(a)[8..] == NatToDec(a);
    assert Device(b)[8..] == NatToDec(b);
    DecRoundTrip(a);
    DecRoundTrip(b);
  }

  /** The intended choice: the lowest device no process names, and an exception only when all 62 are named. */
  lemma AttachExactLowest(procs: seq<string>) returns (k: nat)
    ensures AttachResult(ExactBusy(procs)).Ok? ==>
      1 <= k <= 62 && AttachResult(ExactBusy(procs)).value == Device(k) && !ExactBusy(procs)(k) &&
      forall j :: 1 <= j < k ==> ExactBusy(procs)(j)
    ensures AttachResult(ExactBusy(procs)).Err? <==> forall j :: 1 <= j <= 62 ==> ExactBusy(procs)(j)
  {
    var busy := ExactBusy(procs);
    FirstFreeLeast(busy, 1);
    k := if FirstFree(busy, 1).Some? then FirstFree(busy, 1).value else 0;
  }

  // --------------------------------------------------------- tests and args

  /** testDict(): each module function whose name ends in 'Test', keyed by the name without that suffix. */
  function TestDict(fnames: set<string>): map<string, string> {
    map k | k in TestNames(fnames) :: k + "Test"
  }

  function TestNames(fnames: set<string>): set<string> {
    set f | f in fnames && EndsWith(f, "Test") :: f[..|f| - 4]
  }

  /** A key is in testDict exactly when key + 'Test' is a function of the module, and maps to it. */
  lemma TestDictKeys(fnames: set<string>, key: string)
    ensures key in TestDict(fnames) <==> key + "Test" in fnames
    ensures key in TestDict(fnames) ==> TestDict(fnames)[key] == key + "Test"
  {
    var t := key + "Test";
    assert t[..|t| - 4] == key && t[|t| - 4..] == "Test";
    if key in TestDict(fnames) {
      assert key in TestNames(fnames);
      var f :| f in fnames && EndsWith(f, "Test") && f[..|f| - 4] == key;
      assert f == f[..|f| - 4] + f[|f| - 4..];
    }
  }

  /** The functions util/vm/build.py defines. */
  const BuildFunctions: set<string> := BuildTests + BuildHelpers

  const BuildTests: set<string> := {
    "sanityTest", "coreTest", "noneTest", "examplesquickTest", "examplesfullTest", "walkthroughTest", "useTest"}

  const BuildHelpers: set<string> := {
    "serverURL", "legacyURL", "OSVersion", "OVFOSNameID", "log", "run", "srun", "depend", "popen",
    "remove", "findiso", "attachNBD", "detachNBD", "extractKernel", "findBaseImage",
    "makeKickstartFloppy", "archFor", "installUbuntu", "boot", "login", "removeNtpd",
    "installPexpect", "checkOutBranch", "interact", "cleanup", "convert", "generateOVF",
    "qcow2size", "build", "runTests", "getMininetVersion", "bootAndRun", "buildFlavorString",
    "testDict", "testString", "parseArgs"}

  /** parseArgs: with no -t, -r or -p option the tests are sanity and core; otherwise the -t list as given. */
  function DefaultTests(test: seq<string>, run: string, post: string): (r: seq<string>)
    ensures test != [] ==> r == test
    ensures test == [] && (run != "" || post != "") ==> r == []
  {
    if test == [] && run == "" && post == "" then ["sanity", "core"] else test
  }

  /** The default tests are tests the module defines. */
  lemma DefaultTestsKnown()
    ensures forall t :: t in DefaultTests([], "", "") ==> t in TestDict(BuildFunctions)
  {
    DefaultTestsIn(BuildFunctions);
  }

  lemma DefaultTestsIn(fnames: set<string>)
    requires BuildTests <= fnames
    ensures forall t :: t in DefaultTests([], "", "") ==> t in TestDict(fnames)
  {
    assert "sanity" + "Test" == "sanityTest" && "core" + "Test" == "coreTest";
    assert "sanityTest" in BuildTests && "coreTest" in BuildTests;
    TestDictKeys(fnames, "sanity");
    TestDictKeys(fnames, "core");
  }

  // ------------------------------------------------------- build directory

  /** The local time a build starts. */
  datatype Stamp = Stamp(year: nat, month: nat, day: nat, hour: nat, minute: nat, second: nat)

  /** strftime's zero-padded two-digit field. */
  function Two(n: nat): (s: string)
    requires n < 100
    ensures |s| == 2 && '-' !in s
  {
    [DigitChar(n / 10), DigitChar(n % 10)]
  }

  predicate ValidStamp(t: Stamp) {
    t.month < 100 && t.day < 100 && t.hour < 100 && t.minute < 100 && t.second < 100
  }

  /** strftime('%y%m%d-%H-%M-%S'). */
  function DateString(t: Stamp): string
    requires ValidStamp(t)
  {
    Two(t.year % 100) + Two(t.month) + Two(t.day) + "-" + Two(t.hour) + "-" + Two(t.minute) + "-" + Two(t.second)
  }

  /** The date's fields, in the order the directory name shows them. */
  function DateParts(t: Stamp): seq<string>
    requires ValidStamp(t)
  {
    [Two(t.year % 100) + Two(t.month) + Two(t.day), Two(t.hour), Two(t.minute), Two(t.second)]
  }

  /** build(): 'mn-<flavor>-<date>', or 'mn-<branch>-<flavor>-<date>' when a branch is set ('' meaning unset). */
  function BuildDir(flavor: string, branch: string, t: Stamp): string
    requires ValidStamp(t)
  {
    if branch != "" then "mn-" + branch + "-" + flavor + "-" + DateString(t)
    else "mn-" + flavor + "-" + DateString(t)
  }

  /** Splitting the directory name at '-' gives back the branch, the flavour and the date when neither holds a '-'. */
  lemma BuildDirSplit(flavor: string, branch: string, t: Stamp)
    requires ValidStamp(t) && '-' !in flavor && '-' !in branch
    ensures Split(BuildDir(flavor, branch, t), '-') == DirParts(flavor, branch, t)
  {
    BuildDirJoin(flavor, branch, t);
    var parts := DirParts(flavor, branch, t);
    assert forall i :: 0 <= i < |parts| ==> '-' !in parts[i];
    SplitJoin(parts, '-');
  }

  /** The pieces of the directory name between its dashes. */
  function DirParts(flavor: string, branch: string, t: Stamp): seq<string>
    requires ValidStamp(t)
  {
    ["mn"] + (if branch != "" then [branch] else []) + [flavor] + DateParts(t)
  }

  lemma BuildDirJoin(flavor: string, branch: string, t: Stamp)
    requires ValidStamp(t)
    ensures Join(DirParts(flavor, branch, t), '-') == BuildDir(flavor, branch, t)
  {
    var d := DateParts(t);
    DateJoin(t);
    JoinCons(flavor, d, '-');
    if branch != "" {
      JoinCons(branch, [flavor] + d, '-');
      JoinCons("mn", [branch] + ([flavor] + d), '-');
      assert DirParts(flavor, branch, t) == ["mn"] + ([branch] + ([flavor] + d));
    } else {
      JoinCons("mn", [flavor] + d, '-');
      assert DirParts(flavor, branch, t) == ["mn"] + ([flavor] + d);
    }
  }

  lemma DateJoin(t: Stamp)
    requires ValidStamp(t)
    ensures Join(DateParts(t), '-') == DateString(t)
  {
    var d := DateParts(t);
    JoinCons(d[0], d[1..], '-');
    JoinCons(d[1], d[2..], '-');
    JoinCons(d[2], d[3..], '-');
    assert d[3..] == [d[3]];
  }

  lemma JoinCons(a: string, rest: seq<string>, c: char)
    requires rest != []
    ensures Join([a] + rest, c) == a + [c] + Join(rest, c)
  {
    assert ([a] + rest)[1..] == rest;
  }
}
