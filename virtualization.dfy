/** Detection of the virtualization layers installed on a host: the command
    runner, the service check, the five probes and their aggregator of
    app/system_info/virtualization_discover.py. The host is an input value:
    it says what each command line does when it is run. */
module Virtualization {
  import opened PyText

  datatype Option<T> = None | Some(value: T)

  /** What running one command line does on the host. `Fault` stands for
      every `Exception` the runner does not catch: a permission error or
      other OS error from starting the process, or output that does not
      decode. */
  datatype Outcome = Exit0(stdout: string) | NonZero | NotFound | Fault

  /** The host: the outcome of every command line it knows. A command line
      that is not in the map names an executable that is not installed. */
  type Host = map<seq<string>, Outcome>

  /** A Python call that either returns a value or raises. */
  datatype Py<T> = Ok(value: T) | Raised

  function Run(host: Host, argv: seq<string>): Outcome
  {
    if argv in host then host[argv] else NotFound
  }

  /** `check_command`: the stripped output of a command that exits 0; None
      for a non-zero exit status and for a missing executable; any other
      fault propagates to the caller. */
  function CheckCommand(host: Host, argv: seq<string>): (r: Py<Option<string>>)
    ensures r.Raised? <==> Run(host, argv).Fault?
    ensures r == Ok(None) <==> Run(host, argv).NonZero? || Run(host, argv).NotFound?
    ensures Run(host, argv).Exit0? ==> r == Ok(Some(Strip(Run(host, argv).stdout)))
  {
    match Run(host, argv)
    case Exit0(out) => Ok(Some(Strip(out)))
    case NonZero => Ok(None)
    case NotFound => Ok(None)
    case Fault => Raised
  }

  function ServiceArgv(service: string): seq<string>
  {
    ["systemctl", "is-active", service]
  }

  /** `check_service`: True exactly when `systemctl is-active <service>`
      exits 0, whatever it prints; False when it exits non-zero or when
      systemctl is missing. */
  function CheckService(host: Host, service: string): (r: Py<bool>)
    ensures r == Ok(true) <==> Run(host, ServiceArgv(service)).Exit0?
    ensures r == Ok(false) <==> Run(host, ServiceArgv(service)).NonZero? || Run(host, ServiceArgv(service)).NotFound?
    ensures r.Raised? <==> Run(host, ServiceArgv(service)).Fault?
  {
    match Run(host, ServiceArgv(service))
    case Exit0(_) => Ok(true)
    case NonZero => Ok(false)
    case NotFound => Ok(false)
    case Fault => Raised
  }

  /** The text systemctl prints has no bearing on the answer: a service that
      reports "inactive" on exit status 0 still counts as active. */
  lemma ServiceIgnoresStdout(host: Host, service: string, out1: string, out2: string)
    ensures CheckService(host[ServiceArgv(service) := Exit0(out1)], service)
         == CheckService(host[ServiceArgv(service) := Exit0(out2)], service)
    ensures CheckService(host[ServiceArgv(service) := Exit0("inactive")], service) == Ok(true)
  {
  }

  /** The truthiness test the probes apply to a runner result: None and the
      empty string are false. */
  predicate Truthy(o: Option<string>)
  {
    o.Some? && o.value != ""
  }

  /** A detection command counts as "installed" when it exits 0 and prints
      something other than whitespace. */
  predicate Installed(host: Host, argv: seq<string>)
  {
    Run(host, argv).Exit0? && HasVisibleText(Run(host, argv).stdout)
  }

  /** The runner's result is truthy exactly when the command is installed in
      the above sense; empty or blank output reads as "not installed". */
  lemma TruthyIffInstalled(host: Host, argv: seq<string>)
    requires !Run(host, argv).Fault?
    ensures CheckCommand(host, argv).Ok? && (Truthy(CheckCommand(host, argv).value) <==> Installed(host, argv))
  {
    if Run(host, argv).Exit0? {
      StripEmptyIff(Run(host, argv).stdout);
    }
  }

  /** The shape shared by `check_docker`, `check_proxmox` and `check_lxc`:
      run the detection command; when its output is truthy, the answer is
      the service check; otherwise False, without asking for the service. */
  function DetectWithService(host: Host, detect: seq<string>, service: string): (r: Py<bool>)
    ensures r == Ok(true) <==> Installed(host, detect) && Run(host, ServiceArgv(service)).Exit0?
    ensures r.Raised? <==> Run(host, detect).Fault? || (Installed(host, detect) && Run(host, ServiceArgv(service)).Fault?)
  {
    match CheckCommand(host, detect)
    case Raised => Raised
    case Ok(v) =>
      TruthyIffInstalled(host, detect);
      if Truthy(v) then CheckService(host, service) else Ok(false)
  }

  /** The shape shared by `check_qemu` and `check_kvm`: installed is enough. */
  function DetectOnly(host: Host, detect: seq<string>): (r: Py<bool>)
    ensures r == Ok(true) <==> Installed(host, detect)
    ensures r.Raised? <==> Run(host, detect).Fault?
  {
    match CheckCommand(host, detect)
    case Raised => Raised
    case Ok(v) =>
      TruthyIffInstalled(host, detect);
      Ok(Truthy(v))
  }

  /** The five virtualization layers, in the order the aggregator probes them. */
  datatype Tech = Docker | Proxmox | Lxc | Qemu | Kvm

  /** The name reported for each layer. */
  function Name(t: Tech): string
  {
    match t
    case Docker => "docker"
    case Proxmox => "proxmox"
    case Lxc => "lxc"
    case Qemu => "qemu"
    case Kvm => "kvm"
  }

  /** The detection command of each layer. */
  function DetectArgv(t: Tech): seq<string>
  {
    match t
    case Docker => ["docker", "--version"]
    case Proxmox => ["pveversion"]
    case Lxc => ["lxc-checkconfig"]
    case Qemu => ["qemu-system-x86_64", "--version"]
    case Kvm => ["kvm", "--version"]
  }

  /** The service that must be active for the layer to count, if any. */
  function ServiceOf(t: Tech): Option<string>
  {
    match t
    case Docker => Some("docker")
    case Proxmox => Some("pvedaemon")
    case Lxc => Some("lxc")
    case Qemu => None
    case Kvm => None
  }

  /** `check_docker`: True iff `docker --version` prints something and the
      `docker` service is active. */
  function CheckDocker(host: Host): (r: Py<bool>)
    ensures r == Ok(true) <==> Installed(host, ["docker", "--version"]) && Run(host, ServiceArgv("docker")).Exit0?
    ensures !Installed(host, ["docker", "--version"]) && !Run(host, ["docker", "--version"]).Fault? ==> r == Ok(false)
    ensures r.Raised? <==> Run(host, ["docker", "--version"]).Fault? || (Installed(host, ["docker", "--version"]) && Run(host, ServiceArgv("docker")).Fault?)
  {
    DetectWithService(host, ["docker", "--version"], "docker")
  }

  /** `check_proxmox`: True iff `pveversion` prints something and the
      `pvedaemon` service is active. */
  function CheckProxmox(host: Host): (r: Py<bool>)
    ensures r == Ok(true) <==> Installed(host, ["pveversion"]) && Run(host, ServiceArgv("pvedaemon")).Exit0?
    ensures !Installed(host, ["pveversion"]) && !Run(host, ["pveversion"]).Fault? ==> r == Ok(false)
    ensures r.Raised? <==> Run(host, ["pveversion"]).Fault? || (Installed(host, ["pveversion"]) && Run(host, ServiceArgv("pvedaemon")).Fault?)
  {
    DetectWithService(host, ["pveversion"], "pvedaemon")
  }

  /** `check_lxc`: True iff `lxc-checkconfig` prints something and the `lxc`
      service is active. */
  function CheckLxc(host: Host): (r: Py<bool>)
    ensures r == Ok(true) <==> Installed(host, ["lxc-checkconfig"]) && Run(host, ServiceArgv("lxc")).Exit0?
    ensures !Installed(host, ["lxc-checkconfig"]) && !Run(host, ["lxc-checkconfig"]).Fault? ==> r == Ok(false)
    ensures r.Raised? <==> Run(host, ["lxc-checkconfig"]).Fault? || (Installed(host, ["lxc-checkconfig"]) && Run(host, ServiceArgv("lxc")).Fault?)
  {
    DetectWithService(host, ["lxc-checkconfig"], "lxc")
  }

  /** `check_qemu`: True iff `qemu-system-x86_64 --version` prints something. */
  function CheckQemu(host: Host): (r: Py<bool>)
    ensures r == Ok(true) <==> Installed(host, ["qemu-system-x86_64", "--version"])
    ensures r.Raised? <==> Run(host, ["qemu-system-x86_64", "--version"]).Fault?
  {
    DetectOnly(host, ["qemu-system-x86_64", "--version"])
  }

  /** `check_kvm`: True iff `kvm --version` prints something. */
  function CheckKvm(host: Host): (r: Py<bool>)
    ensures r == Ok(true) <==> Installed(host, ["kvm", "--version"])
    ensures r.Raised? <==> Run(host, ["kvm", "--version"]).Fault?
  {
    DetectOnly(host, ["kvm", "--version"])
  }

  /** The probe of one layer. */
  function Probe(host: Host, t: Tech): Py<bool>
  {
    match t
    case Docker => CheckDocker(host)
    case Proxmox => CheckProxmox(host)
    case Lxc => CheckLxc(host)
    case Qemu => CheckQemu(host)
    case Kvm => CheckKvm(host)
  }

  /** The decision table: a layer is detected iff its detection command
      prints something and, where the layer has a service, that service is
      active; a layer without a service consults nothing else. */
  lemma ProbeDecisionTable(host: Host, t: Tech)
    ensures Probe(host, t) == Ok(true) <==>
      Installed(host, DetectArgv(t)) &&
      (ServiceOf(t).Some? ==> Run(host, ServiceArgv(ServiceOf(t).value)).Exit0?)
    ensures !Installed(host, DetectArgv(t)) && !Run(host, DetectArgv(t)).Fault? ==> Probe(host, t) == Ok(false)
    ensures Probe(host, t).Raised? <==>
      Run(host, DetectArgv(t)).Fault? ||
      (Installed(host, DetectArgv(t)) && ServiceOf(t).Some? && Run(host, ServiceArgv(ServiceOf(t).value)).Fault?)
  {
  }

  /** A layer whose detection command is not installed answers False, and
      the state of its service cannot change that. */
  lemma UninstalledIgnoresService(host: Host, t: Tech, o: Outcome)
    requires ServiceOf(t).Some?
    requires !Installed(host, DetectArgv(t)) && !Run(host, DetectArgv(t)).Fault?
    ensures Probe(host[ServiceArgv(ServiceOf(t).value) := o], t) == Ok(false)
  {
  }

  /** The probe order and the reported vocabulary. */
  const ProbeOrder: seq<Tech> := [Docker, Proxmox, Lxc, Qemu, Kvm]
  const Vocabulary: seq<string> := ["docker", "proxmox", "lxc", "qemu", "kvm"]

  /** What one guarded probe adds to the report: the layer's name when the
      probe returned True; nothing when it returned False or raised. */
  function Contribution(p: Py<bool>, name: string): seq<string>
  {
    if p == Ok(true) then [name] else []
  }

  /** The report built from a run of guarded probes, each given by its
      result and the name it would append. */
  function Report(results: seq<(Py<bool>, string)>): seq<string>
  {
    if results == [] then [] else Contribution(results[0].0, results[0].1) + Report(results[1..])
  }

  /** The five probe results of a host, in the aggregator's order. */
  function ProbeResults(host: Host): seq<(Py<bool>, string)>
  {
    [(CheckDocker(host), "docker"), (CheckProxmox(host), "proxmox"), (CheckLxc(host), "lxc"),
     (CheckQemu(host), "qemu"), (CheckKvm(host), "kvm")]
  }

  /** The aggregator runs every layer's probe once, in the fixed order, each
      paired with the layer's own name. */
  lemma ProbeResultsInOrder(host: Host)
    ensures |ProbeResults(host)| == |ProbeOrder| == 5
    ensures forall i :: 0 <= i < 5 ==> ProbeResults(host)[i] == (Probe(host, ProbeOrder[i]), Name(ProbeOrder[i]))
    ensures NamesOf(ProbeResults(host)) == Vocabulary
  {
  }

  /** What `check_virtualization` reports for a host. */
  function DetectedNames(host: Host): seq<string>
  {
    Report(ProbeResults(host))
  }

  /** A run of five guarded probes appends their contributions in turn. */
  lemma ReportFive(r1: (Py<bool>, string), r2: (Py<bool>, string), r3: (Py<bool>, string),
                   r4: (Py<bool>, string), r5: (Py<bool>, string))
    ensures Report([r1, r2, r3, r4, r5]) == Contribution(r1.0, r1.1) + Contribution(r2.0, r2.1)
      + Contribution(r3.0, r3.1) + Contribution(r4.0, r4.1) + Contribution(r5.0, r5.1)
  {
    var c1, c2, c3 := Contribution(r1.0, r1.1), Contribution(r2.0, r2.1), Contribution(r3.0, r3.1);
    var c4, c5 := Contribution(r4.0, r4.1), Contribution(r5.0, r5.1);
    assert Report([r5]) == c5 by { assert [r5][1..] == []; }
    assert Report([r4, r5]) == c4 + c5 by { assert [r4, r5][1..] == [r5]; }
    assert Report([r3, r4, r5]) == c3 + (c4 + c5) by { assert [r3, r4, r5][1..] == [r4, r5]; }
    assert Report([r2, r3, r4, r5]) == c2 + (c3 + (c4 + c5)) by { assert [r2, r3, r4, r5][1..] == [r3, r4, r5]; }
    assert Report([r1, r2, r3, r4, r5]) == c1 + (c2 + (c3 + (c4 + c5))) by {
      assert [r1, r2, r3, r4, r5][1..] == [r2, r3, r4, r5];
    }
    ConcatFive(c1, c2, c3, c4, c5);
  }

  lemma ConcatFive(c1: seq<string>, c2: seq<string>, c3: seq<string>, c4: seq<string>, c5: seq<string>)
    ensures c1 + (c2 + (c3 + (c4 + c5))) == c1 + c2 + c3 + c4 + c5
  {
  }

  /** `check_virtualization`: each probe in turn, inside its own try block.
      True appends the layer's name; False adds nothing; an exception is
      logged and swallowed, which also adds nothing, and the following
      probes still run. */
  method CheckVirtualization(host: Host) returns (installed: seq<string>)
    ensures installed == DetectedNames(host)
    ensures forall t: Tech :: Name(t) in installed <==> Probe(host, t) == Ok(true)
  {
    installed := [];
    var docker := CheckDocker(host);
    if docker == Ok(true) { installed := installed + ["docker"]; }
    assert installed == Contribution(docker, "docker");
    var proxmox := CheckProxmox(host);
    if proxmox == Ok(true) { installed := installed + ["proxmox"]; }
    assert installed == Contribution(docker, "docker") + Contribution(proxmox, "proxmox");
    var lxc := CheckLxc(host);
    if lxc == Ok(true) { installed := installed + ["lxc"]; }
    assert installed == Contribution(docker, "docker") + Contribution(proxmox, "proxmox") + Contribution(lxc, "lxc");
    var qemu := CheckQemu(host);
    if qemu == Ok(true) { installed := installed + ["qemu"]; }
    assert installed == Contribution(docker, "docker") + Contribution(proxmox, "proxmox") + Contribution(lxc, "lxc")
      + Contribution(qemu, "qemu");
    var kvm := CheckKvm(host);
    if kvm == Ok(true) { installed := installed + ["kvm"]; }
    ReportFive((docker, "docker"), (proxmox, "proxmox"), (lxc, "lxc"), (qemu, "qemu"), (kvm, "kvm"));
    assert installed == DetectedNames(host);
    DetectedMembership(host);
  }

  /** `s` is obtained from `t` by deleting elements. */
  predicate IsSubsequence(s: seq<string>, t: seq<string>)
    decreases |t|
  {
    if s == [] then true
    else if t == [] then false
    else if s[0] == t[0] then IsSubsequence(s[1..], t[1..])
    else IsSubsequence(s, t[1..])
  }

  lemma {:induction false} SubsequenceOfTail(s: seq<string>, t: seq<string>, x: string)
    requires IsSubsequence(s, t)
    ensures IsSubsequence(s, [x] + t)
    decreases |t|, 1
  {
    assert ([x] + t)[1..] == t;
    if s != [] && s[0] == x {
      SubsequenceDropHead(s, t);
    }
  }

  lemma {:induction false} SubsequenceDropHead(s: seq<string>, t: seq<string>)
    requires s != [] && IsSubsequence(s, t)
    ensures IsSubsequence(s[1..], t)
    decreases |t|, 0
  {
    if s[0] == t[0] {
      if s[1..] != [] {
        SubsequenceOfTail(s[1..], t[1..], t[0]);
        assert [t[0]] + t[1..] == t;
      }
    } else {
      SubsequenceDropHead(s, t[1..]);
      if s[1..] != [] {
        SubsequenceOfTail(s[1..], t[1..], t[0]);
        assert [t[0]] + t[1..] == t;
      }
    }
  }

  /** The names a run of guarded probes would append, whatever they return. */
  function NamesOf(rs: seq<(Py<bool>, string)>): (r: seq<string>)
    ensures |r| == |rs|
    ensures forall i :: 0 <= i < |rs| ==> r[i] == rs[i].1
  {
    if rs == [] then [] else [rs[0].1] + NamesOf(rs[1..])
  }

  /** The report keeps the probe order: it is a subsequence of the names. */
  lemma {:induction false} ReportIsSubsequence(rs: seq<(Py<bool>, string)>)
    ensures IsSubsequence(Report(rs), NamesOf(rs))
  {
    if rs != [] {
      ReportIsSubsequence(rs[1..]);
      var rest := Report(rs[1..]);
      assert NamesOf(rs) == [rs[0].1] + NamesOf(rs[1..]);
      if rs[0].0 != Ok(true) {
        assert Report(rs) == rest;
        SubsequenceOfTail(rest, NamesOf(rs[1..]), rs[0].1);
      } else {
        assert ([rs[0].1] + rest)[1..] == rest;
      }
    }
  }

  /** The report lists names from the fixed vocabulary, in probe order. */
  lemma DetectedInVocabularyOrder(host: Host)
    ensures IsSubsequence(DetectedNames(host), Vocabulary)
  {
    ReportIsSubsequence(ProbeResults(host));
    ProbeResultsInOrder(host);
  }

  /** A name is in the report iff some probe with that name returned True. */
  lemma {:induction false} ReportMembership(rs: seq<(Py<bool>, string)>, x: string)
    ensures x in Report(rs) <==> exists i :: 0 <= i < |rs| && rs[i] == (Ok(true), x)
  {
    if rs != [] {
      ReportMembership(rs[1..], x);
      if x in Report(rs[1..]) {
        var i :| 0 <= i < |rs[1..]| && rs[1..][i] == (Ok(true), x);
        assert rs[i + 1] == rs[1..][i];
      }
      if exists i :: 0 <= i < |rs| && rs[i] == (Ok(true), x) {
        var i :| 0 <= i < |rs| && rs[i] == (Ok(true), x);
        if i > 0 {
          assert rs[1..][i - 1] == rs[i];
        }
      }
    }
  }

  /** A layer's name is reported iff its probe returned True; a probe that
      raised contributes nothing; and nothing outside the vocabulary is
      reported. */
  lemma DetectedMembership(host: Host)
    ensures forall t: Tech :: Name(t) in DetectedNames(host) <==> Probe(host, t) == Ok(true)
    ensures forall t: Tech :: Probe(host, t).Raised? ==> Name(t) !in DetectedNames(host)
    ensures forall x :: x in DetectedNames(host) ==> x in Vocabulary
  {
    var rs := ProbeResults(host);
    ProbeResultsInOrder(host);
    forall t: Tech ensures Name(t) in DetectedNames(host) <==> Probe(host, t) == Ok(true) {
      ReportMembership(rs, Name(t));
      var k := match t case Docker => 0 case Proxmox => 1 case Lxc => 2 case Qemu => 3 case Kvm => 4;
      assert ProbeOrder[k] == t;
      forall i | 0 <= i < 5 && i != k ensures rs[i].1 != Name(t) {
        assert Name(ProbeOrder[i]) != Name(t);
      }
    }
    forall x | x in DetectedNames(host) ensures x in Vocabulary {
      ReportMembership(rs, x);
    }
  }

  predicate NoDuplicates(s: seq<string>)
  {
    forall i, j :: 0 <= i < j < |s| ==> s[i] != s[j]
  }

  lemma NoDuplicatesCons(x: string, s: seq<string>)
    requires x !in s && NoDuplicates(s)
    ensures NoDuplicates([x] + s)
  {
    var xs := [x] + s;
    forall i, j | 0 <= i < j < |xs| ensures xs[i] != xs[j] {
      assert xs[j] == s[j - 1];
      if i > 0 {
        assert xs[i] == s[i - 1];
      }
    }
  }

  /** Distinct probe names give a report without repetitions. */
  lemma {:induction false} ReportNoDuplicates(rs: seq<(Py<bool>, string)>)
    requires NoDuplicates(NamesOf(rs))
    ensures NoDuplicates(Report(rs))
  {
    if rs != [] {
      var names := NamesOf(rs);
      assert NamesOf(rs[1..]) == names[1..];
      ReportNoDuplicates(rs[1..]);
      if rs[0].0 == Ok(true) {
        ReportMembership(rs[1..], rs[0].1);
        forall i | 0 <= i < |rs[1..]| ensures rs[1..][i].1 != rs[0].1 {
          assert names[i + 1] == rs[1..][i].1 && names[0] == rs[0].1;
        }
        NoDuplicatesCons(rs[0].1, Report(rs[1..]));
      }
    }
  }

  /** No layer is reported twice. */
  lemma DetectedNoDuplicates(host: Host)
    ensures NoDuplicates(DetectedNames(host))
  {
    ProbeResultsInOrder(host);
    ReportNoDuplicates(ProbeResults(host));
  }

  /** When no detection command exits 0, nothing is reported. */
  lemma NothingInstalledReportsNothing(host: Host)
    requires forall t: Tech :: !Run(host, DetectArgv(t)).Exit0?
    ensures DetectedNames(host) == []
  {
    var rs := ProbeResults(host);
    ProbeResultsInOrder(host);
    forall i | 0 <= i < |rs| ensures rs[i].0 != Ok(true) {
      ProbeDecisionTable(host, ProbeOrder[i]);
    }
    ReportEmptyIff(rs);
  }

  /** The report is empty exactly when no probe returned True. */
  lemma {:induction false} ReportEmptyIff(rs: seq<(Py<bool>, string)>)
    ensures Report(rs) == [] <==> forall i :: 0 <= i < |rs| ==> rs[i].0 != Ok(true)
  {
    if rs != [] {
      ReportEmptyIff(rs[1..]);
      if forall i :: 0 <= i < |rs| ==> rs[i].0 != Ok(true) {
        assert forall i :: 0 <= i < |rs[1..]| ==> rs[1..][i] == rs[i + 1];
      } else {
        var i :| 0 <= i < |rs| && rs[i].0 == Ok(true);
        if i > 0 {
          assert rs[1..][i - 1] == rs[i];
        }
      }
    }
  }

  /** Reports agree when the probes agree on which returned True. */
  lemma {:induction false} ReportCongruent(rs1: seq<(Py<bool>, string)>, rs2: seq<(Py<bool>, string)>)
    requires |rs1| == |rs2|
    requires forall i :: 0 <= i < |rs1| ==> rs1[i].1 == rs2[i].1 && (rs1[i].0 == Ok(true) <==> rs2[i].0 == Ok(true))
    ensures Report(rs1) == Report(rs2)
  {
    if rs1 != [] {
      assert rs1[0].1 == rs2[0].1 && (rs1[0].0 == Ok(true) <==> rs2[0].0 == Ok(true));
      ReportCongruent(rs1[1..], rs2[1..]);
    }
  }

  /** Failure isolation: a probe that raises leaves the report exactly as if
      that layer were simply absent, so every other layer is reported as
      before. */
  lemma RaisingProbeIsIsolated(host: Host, t: Tech)
    ensures DetectedNames(host[DetectArgv(t) := Fault]) == DetectedNames(host[DetectArgv(t) := NotFound])
    ensures forall u: Tech :: u != t ==>
      (Name(u) in DetectedNames(host[DetectArgv(t) := Fault]) <==> Name(u) in DetectedNames(host))
  {
    var hf := host[DetectArgv(t) := Fault];
    var hn := host[DetectArgv(t) := NotFound];
    forall u: Tech ensures (Probe(hf, u) == Ok(true)) == (Probe(hn, u) == Ok(true)) {
      if u != t {
        OtherProbeUnaffected(host, t, u, Fault);
        OtherProbeUnaffected(host, t, u, NotFound);
      }
    }
    ProbeResultsInOrder(hf);
    ProbeResultsInOrder(hn);
    ReportCongruent(ProbeResults(hf), ProbeResults(hn));
    DetectedMembership(hf);
    DetectedMembership(host);
    forall u: Tech | u != t ensures Probe(hf, u) == Probe(host, u) {
      OtherProbeUnaffected(host, t, u, Fault);
    }
  }

  /** Changing what one layer's detection command does changes no other probe. */
  lemma OtherProbeUnaffected(host: Host, t: Tech, u: Tech, o: Outcome)
    requires u != t
    ensures Probe(host[DetectArgv(t) := o], u) == Probe(host, u)
  {
    var h := host[DetectArgv(t) := o];
    assert DetectArgv(t)[0] != DetectArgv(u)[0];
    assert Run(h, DetectArgv(u)) == Run(host, DetectArgv(u));
    if ServiceOf(u).Some? {
      assert Run(h, ServiceArgv(ServiceOf(u).value)) == Run(host, ServiceArgv(ServiceOf(u).value));
    }
  }

  /** Failure isolation for the service check: a layer whose service check
      raises is reported exactly as if its `systemctl is-active` had exited
      non-zero, and every other layer is reported as before. */
  lemma RaisingServiceCheckIsIsolated(host: Host, t: Tech)
    requires ServiceOf(t).Some?
    ensures DetectedNames(host[ServiceArgv(ServiceOf(t).value) := Fault])
         == DetectedNames(host[ServiceArgv(ServiceOf(t).value) := NonZero])
    ensures forall u: Tech :: u != t ==>
      (Name(u) in DetectedNames(host[ServiceArgv(ServiceOf(t).value) := Fault]) <==> Name(u) in DetectedNames(host))
  {
    var sv := ServiceArgv(ServiceOf(t).value);
    var hf := host[sv := Fault];
    var hn := host[sv := NonZero];
    forall u: Tech ensures (Probe(hf, u) == Ok(true)) == (Probe(hn, u) == Ok(true)) {
      if u != t {
        OtherServiceUnaffected(host, t, u, Fault);
        OtherServiceUnaffected(host, t, u, NonZero);
      } else {
        ProbeDecisionTable(hf, t);
        ProbeDecisionTable(hn, t);
      }
    }
    ProbeResultsInOrder(hf);
    ProbeResultsInOrder(hn);
    ReportCongruent(ProbeResults(hf), ProbeResults(hn));
    DetectedMembership(hf);
    DetectedMembership(host);
    forall u: Tech | u != t ensures Probe(hf, u) == Probe(host, u) {
      OtherServiceUnaffected(host, t, u, Fault);
    }
  }

  /** Changing what one layer's service check does changes no other probe. */
  lemma OtherServiceUnaffected(host: Host, t: Tech, u: Tech, o: Outcome)
    requires ServiceOf(t).Some? && u != t
    ensures Probe(host[ServiceArgv(ServiceOf(t).value) := o], u) == Probe(host, u)
  {
    var h := host[ServiceArgv(ServiceOf(t).value) := o];
    assert DetectArgv(u)[0] != "systemctl";
    assert Run(h, DetectArgv(u)) == Run(host, DetectArgv(u));
    if ServiceOf(u).Some? {
      assert ServiceOf(u).value != ServiceOf(t).value;
      assert ServiceArgv(ServiceOf(u).value)[2] != ServiceArgv(ServiceOf(t).value)[2];
      assert Run(h, ServiceArgv(ServiceOf(u).value)) == Run(host, ServiceArgv(ServiceOf(u).value));
    }
  }
}
