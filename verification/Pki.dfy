/**
 The certificate directory of the remote API (`with_tls_material_at` and what it
 calls in `src/remote_api.rs`) as a state machine: files are written and renamed one
 by one under an exclusive lock, and a process may stop between any two steps.
 Keys, certificates and the parsers of the certificate libraries are abstract.
 */
module Pki {
  import opened Wrappers

  type Pid = nat
  type Key = nat
  type Identifier = seq<nat>

  /** What a file holds, as far as the program can parse it. */
  datatype Content =
    | Certificate(publicKey: Key, subject: Option<Identifier>, authority: Option<Identifier>)
    | PrivateKey(key: Key)
    | Text(text: string)
    | Unreadable // empty, torn or foreign

  datatype File =
    | CaPem
    | CaKey
    | ServerPem
    | ServerKey
    | HostnameFile
    | ClientPem(id: string)
    | ClientKey(keyId: string)
    | Temporary(name: File, pid: Pid)

  type Dir = map<File, Content>

  datatype Entry = Entry(file: File, content: Content)

  /** What the certificate library generates: fresh keys and the identifiers it derives from them. */
  datatype Generated = Generated(caKey: Key, caIdentifier: Identifier, serverKey: Key, derived: Identifier)

  // ---- the files of an installation and of a rotation ------------------------------------------

  /** `create_pki`, in the order the files are written. */
  function NewInstallation(host: string, g: Generated): seq<Entry> {
    [Entry(CaPem, Certificate(g.caKey, Some(g.caIdentifier), None)),
     Entry(CaKey, PrivateKey(g.caKey)),
     Entry(ServerPem, Certificate(g.serverKey, None, Some(g.caIdentifier))),
     Entry(ServerKey, PrivateKey(g.serverKey)),
     Entry(HostnameFile, Text(host))]
  }

  /** A certificate signed under `ca` names the key identifier of `ca`, or one derived from its key. */
  function IssuerIdentifier(ca: Content, g: Generated): Identifier {
    if ca.Certificate? && ca.subject.Some? then ca.subject.value else g.derived
  }

  /** `rotate_server_certificate`, in the order the files are replaced. */
  function NewServer(host: string, ca: Content, g: Generated): seq<Entry> {
    [Entry(ServerPem, Certificate(g.serverKey, None, Some(IssuerIdentifier(ca, g)))),
     Entry(ServerKey, PrivateKey(g.serverKey)),
     Entry(HostnameFile, Text(host))]
  }

  predicate Holds(dir: Dir, f: File, c: Content) {
    f in dir && dir[f] == c
  }

  predicate IsCertificate(dir: Dir, f: File) {
    f in dir && dir[f].Certificate?
  }

  predicate IsKey(dir: Dir, f: File) {
    f in dir && dir[f].PrivateKey?
  }

  /** `server_certificate_needs_rotation`; `None` is an error. */
  function NeedsRotation(dir: Dir): Option<bool> {
    if !IsCertificate(dir, CaPem) || dir[CaPem].subject.None? then None
    else if !IsCertificate(dir, ServerPem) then None
    else if !IsKey(dir, ServerKey) then None
    else Some(dir[ServerPem].authority != dir[CaPem].subject || dir[ServerKey].key != dir[ServerPem].publicKey)
  }

  datatype Decision = Refuse | Keep | Rotate

  /** The checks on an existing directory, in order; the hostname is looked at first. */
  function Decide(dir: Dir, host: string): Decision {
    if exists f :: f in {CaPem, CaKey, ServerPem, ServerKey} && f !in dir then Refuse
    else if HostnameFile !in dir || !dir[HostnameFile].Text? then Refuse
    else if dir[HostnameFile].text == host && NeedsRotation(dir).None? then Refuse
    else if dir[HostnameFile].text == host && !NeedsRotation(dir).value then Keep
    else if IsCertificate(dir, CaPem) && IsKey(dir, CaKey) then Rotate
    else Refuse
  }

  // ---- the state machine --------------------------------------------------------------------------

  datatype Stage =
    | Waiting(host: string)
    | Locked(host: string)
    | Creating(host: string, generated: Generated, written: nat) // in a directory of its own
    | Rotating(host: string, generated: Generated, ca: Content, done: nat, staged: bool) // staged: next file written
    | Using // the callback runs

  datatype State = State(
    installed: Option<Dir>, // pki
    staging: map<Pid, Dir>, // pki.<pid>.tmp
    holder: Option<Pid>,
    processes: map<Pid, Stage>)

  datatype Action =
    | Begin(pid: Pid, host: string)
    | Acquire(pid: Pid)
    | Inspect(pid: Pid, generated: Generated)
    | WriteFile(pid: Pid)
    | Install(pid: Pid)
    | Replace(pid: Pid)
    | Stop(pid: Pid, leftFile: Option<Content>, leftDir: Option<Dir>) // crash, error or return
    | IssueFile(file: File, content: Content) // client credentials are written without the lock
    | DiscardFile(file: File)

  predicate IsBlank(host: string) {
    forall c :: c in host ==>
                  || '\t' <= c <= '\r' || '\U{2000}' <= c <= '\U{200A}'
                  || c in " \U{0085}\U{00A0}\U{1680}\U{2028}\U{2029}\U{202F}\U{205F}\U{3000}"
  }

  /** The hostnames refused are those of the 25 white-space characters of Unicode alone. */
  lemma BlankExactly(host: string)
    ensures IsBlank(host) <==>
              forall c :: c in host ==>
                            c in "\t\n\U{000B}\U{000C}\r \U{0085}\U{00A0}\U{1680}" +
                                 "\U{2000}\U{2001}\U{2002}\U{2003}\U{2004}\U{2005}\U{2006}\U{2007}\U{2008}" +
                                 "\U{2009}\U{200A}\U{2028}\U{2029}\U{202F}\U{205F}\U{3000}"
  {
  }

  predicate IsClientFile(f: File) {
    f.ClientPem? || f.ClientKey?
  }

  function At(s: State, pid: Pid, stage: Stage): State {
    s.(processes := s.processes[pid := stage])
  }

  function Gone(s: State, pid: Pid): State {
    s.(processes := s.processes - {pid}, holder := if s.holder == Some(pid) then None else s.holder)
  }

  function InDir(s: State, dir: Dir): State {
    s.(installed := Some(dir))
  }

  function AfterInspection(s: State, pid: Pid, host: string, g: Generated): State {
    match s.installed
    case None =>
      if pid in s.staging then Gone(s, pid)
      else At(s, pid, Creating(host, g, 0)).(staging := s.staging[pid := map[]])
    case Some(dir) =>
      match Decide(dir, host)
      case Refuse => Gone(s, pid)
      case Keep => At(s, pid, Using)
      case Rotate => At(s, pid, Rotating(host, g, dir[CaPem], 0, false))
  }

  /** `write_private_file`: creates the file anew, or fails. */
  function AfterWrite(s: State, pid: Pid): Option<State>
    requires pid in s.processes
  {
    match s.processes[pid]
    case Creating(host, g, written) =>
      var files := NewInstallation(host, g);
      if written >= |files| || pid !in s.staging || files[written].file in s.staging[pid] then None
      else
        var dir := s.staging[pid][files[written].file := files[written].content];
        Some(At(s, pid, Creating(host, g, written + 1)).(staging := s.staging[pid := dir]))
    case Rotating(host, g, ca, done, staged) =>
      var files := NewServer(host, ca, g);
      if staged || done >= |files| || s.installed.None? then None
      else
        var temporary := Temporary(files[done].file, pid);
        if temporary in s.installed.value then None
        else
          var dir := s.installed.value[temporary := files[done].content];
          Some(InDir(At(s, pid, Rotating(host, g, ca, done, true)), dir))
    case _ => None
  }

  /** The rename at the end of `replace_private_file`; after the last one the callback runs. */
  function AfterReplace(s: State, pid: Pid): Option<State>
    requires pid in s.processes
  {
    match s.processes[pid]
    case Rotating(host, g, ca, done, true) =>
      var files := NewServer(host, ca, g);
      if done >= |files| || s.installed.None? then None
      else
        var dir := s.installed.value;
        var temporary := Temporary(files[done].file, pid);
        if temporary !in dir then None
        else
          var stage := if done + 1 == |files| then Using else Rotating(host, g, ca, done + 1, false);
          Some(InDir(At(s, pid, stage), dir[files[done].file := dir[temporary]] - {temporary}))
    case _ => None
  }

  /** What an interrupted step may leave: its own temporary file or directory, with anything in it. */
  function AfterStop(s: State, pid: Pid, leftFile: Option<Content>, leftDir: Option<Dir>): State
    requires pid in s.processes
  {
    var gone := Gone(s, pid);
    match s.processes[pid]
    case Creating(_, _, _) =>
      gone.(staging := if leftDir.None? then s.staging - {pid} else s.staging[pid := leftDir.value])
    case Rotating(host, g, ca, done, staged) =>
      var files := NewServer(host, ca, g);
      if s.installed.None? || done >= |files| then gone
      else
        var dir := s.installed.value;
        var temporary := Temporary(files[done].file, pid);
        // the file is created anew, so one left by an earlier process stays as it is
        if !staged && temporary in dir then gone
        else InDir(gone, if leftFile.None? then dir - {temporary} else dir[temporary := leftFile.value])
    case _ => gone
  }

  /** One step, or `None` where it cannot be taken. */
  function Step(s: State, a: Action): Option<State> {
    match a
    case Begin(pid, host) =>
      if pid in s.processes || IsBlank(host) then None else Some(At(s, pid, Waiting(host)))
    case Acquire(pid) =>
      if pid !in s.processes || !s.processes[pid].Waiting? || s.holder != None then None
      else Some(At(s, pid, Locked(s.processes[pid].host)).(holder := Some(pid)))
    case Inspect(pid, g) =>
      if pid !in s.processes || !s.processes[pid].Locked? then None
      else Some(AfterInspection(s, pid, s.processes[pid].host, g))
    case WriteFile(pid) =>
      if pid !in s.processes then None else AfterWrite(s, pid)
    case Install(pid) =>
      if pid !in s.processes || !s.processes[pid].Creating? || pid !in s.staging || s.installed.Some? then None
      else if s.processes[pid].written != |NewInstallation(s.processes[pid].host, s.processes[pid].generated)| then None
      else Some(InDir(At(s, pid, Using), s.staging[pid]).(staging := s.staging - {pid}))
    case Replace(pid) =>
      if pid !in s.processes then None else AfterReplace(s, pid)
    case Stop(pid, leftFile, leftDir) =>
      if pid !in s.processes then None else Some(AfterStop(s, pid, leftFile, leftDir))
    case IssueFile(file, content) =>
      if s.installed.None? || !IsClientFile(file) || file in s.installed.value then None
      else Some(InDir(s, s.installed.value[file := content]))
    case DiscardFile(file) =>
      if s.installed.None? || !IsClientFile(file) then None
      else Some(InDir(s, s.installed.value - {file}))
  }

  function Run(s: State, actions: seq<Action>): Option<State>
    decreases |actions|
  {
    if |actions| == 0 then Some(s)
    else
      match Step(s, actions[0])
      case None => None
      case Some(t) => Run(t, actions[1..])
  }

  /** Nobody is running; anything may lie on disk. */
  function Idle(installed: Option<Dir>, staging: map<Pid, Dir>): State {
    State(installed, staging, None, map[])
  }

  // ---- the invariant ----------------------------------------------------------------------------------

  /** The server certificate belongs to the private key, and carries the identifier of the CA's key. */
  ghost predicate Matched(dir: Dir) {
    && IsCertificate(dir, CaPem) && IsCertificate(dir, ServerPem) && IsKey(dir, ServerKey)
    && dir[ServerPem].publicKey == dir[ServerKey].key
    && (dir[CaPem].subject.Some? ==> dir[ServerPem].authority == dir[CaPem].subject)
  }

  /** The first `n` entries are in place. */
  ghost predicate InPlace(dir: Dir, entries: seq<Entry>, n: nat)
    requires n <= |entries|
  {
    forall i :: 0 <= i < n ==> Holds(dir, entries[i].file, entries[i].content)
  }

  ghost predicate OnTrack(s: State, pid: Pid)
    requires pid in s.processes
  {
    match s.processes[pid]
    case Creating(host, g, written) =>
      && s.installed.None? && pid in s.staging && written <= 5
      && InPlace(s.staging[pid], NewInstallation(host, g), written)
    case Rotating(host, g, ca, done, staged) =>
      && s.installed.Some? && ca.Certificate? && Holds(s.installed.value, CaPem, ca)
      && done < 3 && InPlace(s.installed.value, NewServer(host, ca, g), done)
      && (staged ==>
            var next := NewServer(host, ca, g)[done];
            Holds(s.installed.value, Temporary(next.file, pid), next.content))
    case Using => s.installed.Some? && Matched(s.installed.value)
    case _ => true
  }

  /** Everyone past the lock holds it, and finds the files as it left them. */
  ghost predicate Inv(s: State) {
    && (s.holder.Some? ==> s.holder.value in s.processes)
    && (forall pid :: pid in s.processes ==> (s.processes[pid].Waiting? <==> s.holder != Some(pid)))
    && (s.holder.Some? ==> OnTrack(s, s.holder.value))
  }

  /** The files a client of the server relies on: all there, all readable, the CA with its key and identifier. */
  ghost predicate Complete(dir: Dir) {
    && IsCertificate(dir, CaPem) && dir[CaPem].subject.Some?
    && Holds(dir, CaKey, PrivateKey(dir[CaPem].publicKey))
    && IsCertificate(dir, ServerPem) && IsKey(dir, ServerKey)
    && HostnameFile in dir && dir[HostnameFile].Text?
  }

  /** Nothing is rotated without need: the files are kept exactly when they match and are for this hostname. */
  lemma KeepsExactly(dir: Dir, host: string)
    ensures Decide(dir, host) == Keep <==>
              CaKey in dir && Holds(dir, HostnameFile, Text(host)) && Matched(dir) && dir[CaPem].subject.Some?
  {
    assert CaKey in {CaPem, CaKey, ServerPem, ServerKey};
  }

  lemma InstallationMatches(dir: Dir, host: string, g: Generated)
    requires InPlace(dir, NewInstallation(host, g), 5)
    ensures Matched(dir) && Complete(dir)
  {
    var files := NewInstallation(host, g);
    assert Holds(dir, files[0].file, files[0].content) && Holds(dir, files[1].file, files[1].content);
    assert Holds(dir, files[2].file, files[2].content) && Holds(dir, files[3].file, files[3].content);
    assert Holds(dir, files[4].file, files[4].content);
  }

  lemma RotationMatches(dir: Dir, host: string, ca: Content, g: Generated)
    requires ca.Certificate? && Holds(dir, CaPem, ca) && InPlace(dir, NewServer(host, ca, g), 3)
    ensures Matched(dir)
  {
    var files := NewServer(host, ca, g);
    assert Holds(dir, files[0].file, files[0].content) && Holds(dir, files[1].file, files[1].content);
  }

  lemma WriteKeepsInv(s: State, pid: Pid)
    requires Inv(s) && pid in s.processes && AfterWrite(s, pid).Some?
    ensures Inv(AfterWrite(s, pid).value)
  {
  }

  lemma ReplaceKeepsInv(s: State, pid: Pid)
    requires Inv(s) && pid in s.processes && AfterReplace(s, pid).Some?
    ensures Inv(AfterReplace(s, pid).value)
  {
    var p, t := s.processes[pid], AfterReplace(s, pid).value;
    assert s.holder == Some(pid);
    assert InPlace(t.installed.value, NewServer(p.host, p.ca, p.generated), p.done + 1);
    if p.done == 2 { RotationMatches(t.installed.value, p.host, p.ca, p.generated); }
  }

  lemma StepKeepsInv(s: State, a: Action)
    requires Inv(s) && Step(s, a).Some?
    ensures Inv(Step(s, a).value)
  {
    match a
    case WriteFile(pid) => WriteKeepsInv(s, pid);
    case Replace(pid) => ReplaceKeepsInv(s, pid);
    case Install(pid) =>
      InstallationMatches(s.staging[pid], s.processes[pid].host, s.processes[pid].generated);
    case _ =>
  }

  lemma {:induction false} RunKeepsInv(s: State, actions: seq<Action>)
    requires Inv(s) && Run(s, actions).Some?
    ensures Inv(Run(s, actions).value)
    decreases |actions|
  {
    if |actions| > 0 {
      StepKeepsInv(s, actions[0]);
      RunKeepsInv(Step(s, actions[0]).value, actions[1..]);
    }
  }

  /**
   Whatever lies on disk at the start, and wherever processes stop: while a callback
   runs, the certificate on disk belongs to the private key on disk and carries the
   identifier of the CA's key, and nobody else is past the lock.
   */
  lemma CallbackSeesMatched(installed: Option<Dir>, staging: map<Pid, Dir>, actions: seq<Action>, pid: Pid)
    requires Run(Idle(installed, staging), actions).Some?
    requires var s := Run(Idle(installed, staging), actions).value; pid in s.processes && s.processes[pid] == Using
    ensures var s := Run(Idle(installed, staging), actions).value;
            && s.installed.Some? && Matched(s.installed.value)
            && forall other :: other in s.processes && other != pid ==> s.processes[other].Waiting?
  {
    RunKeepsInv(Idle(installed, staging), actions);
  }

  /** Between the first two replacements the files match only if the new key happens to be the old one. */
  lemma HalfRotatedMismatches(s: State, pid: Pid)
    requires Inv(s) && pid in s.processes && s.processes[pid].Rotating? && s.processes[pid].done == 1
    ensures s.installed.Some?
    ensures Matched(s.installed.value)
       <==> Holds(s.installed.value, ServerKey, PrivateKey(s.processes[pid].generated.serverKey))
  {
    var p := s.processes[pid];
    assert s.holder == Some(pid);
    var first := NewServer(p.host, p.ca, p.generated)[0];
    assert Holds(s.installed.value, first.file, first.content);
  }

  // ---- what never changes ----------------------------------------------------------------------------------

  /** The same content, or absent from both. */
  ghost predicate SameIn(d: Dir, e: Dir, f: File) {
    (f in d <==> f in e) && (f in d ==> d[f] == e[f])
  }

  ghost predicate IsLasting(f: File) {
    f == CaPem || f == CaKey || IsClientFile(f)
  }

  /** The client-credential step that names this file. */
  predicate Touches(a: Action, f: File) {
    (a.IssueFile? || a.DiscardFile?) && a.file == f
  }

  lemma StepKeepsLasting(s: State, a: Action, f: File)
    requires Inv(s) && Step(s, a).Some? && s.installed.Some? && IsLasting(f) && !Touches(a, f)
    ensures Step(s, a).value.installed.Some? && SameIn(s.installed.value, Step(s, a).value.installed.value, f)
  {
    hide Matched, Decide;
    match a
    case Replace(pid) => assert s.holder == Some(pid);
    case Stop(pid, _, _) => assert s.processes[pid].Rotating? ==> s.holder == Some(pid);
    case _ =>
  }

  /**
   Once a directory is installed it stays, and no run ever changes its CA files;
   a client's file changes only where that client's file is issued or discarded.
   */
  lemma {:induction false} RunKeepsLasting(s: State, actions: seq<Action>, f: File)
    requires Inv(s) && Run(s, actions).Some? && s.installed.Some? && IsLasting(f)
    requires forall i :: 0 <= i < |actions| ==> !Touches(actions[i], f)
    ensures Run(s, actions).value.installed.Some?
    ensures SameIn(s.installed.value, Run(s, actions).value.installed.value, f)
    decreases |actions|
  {
    hide Inv, Step;
    if |actions| > 0 {
      StepKeepsLasting(s, actions[0], f);
      StepKeepsInv(s, actions[0]);
      RunKeepsLasting(Step(s, actions[0]).value, actions[1..], f);
    }
  }

  // ---- where a step leads ------------------------------------------------------------------------------------

  /**
   A process may stop anywhere. The lock is free again and the others go on; all that
   is left of it is its own directory, or the temporary file of the step it was in,
   where one left by an earlier process of its number stays as it is.
   */
  lemma StopLeads(s: State, pid: Pid, leftFile: Option<Content>, leftDir: Option<Dir>)
    requires Inv(s) && pid in s.processes
    ensures Step(s, Stop(pid, leftFile, leftDir)).Some?
    ensures var p, t := s.processes[pid], Step(s, Stop(pid, leftFile, leftDir)).value;
            && t.processes == s.processes - {pid}
            && t.holder == (if p.Waiting? then s.holder else None)
            && (forall other :: other != pid ==>
                                  (other in t.staging <==> other in s.staging)
                                  && (other in s.staging ==> t.staging[other] == s.staging[other]))
            && (p.Creating? ==>
                  if leftDir.Some? then pid in t.staging && t.staging[pid] == leftDir.value else pid !in t.staging)
            && (!p.Creating? ==> t.staging == s.staging)
            && (!p.Rotating? ==> t.installed == s.installed)
  {
  }

  lemma StopLeaves(s: State, pid: Pid, leftFile: Option<Content>, leftDir: Option<Dir>)
    requires Inv(s) && pid in s.processes && s.processes[pid].Rotating?
    ensures s.installed.Some? && s.processes[pid].done < 3
    ensures Step(s, Stop(pid, leftFile, leftDir)).Some?
    ensures var p, t := s.processes[pid], Step(s, Stop(pid, leftFile, leftDir)).value;
            var temporary := Temporary([ServerPem, ServerKey, HostnameFile][p.done], pid);
            && t.installed.Some?
            && (forall f :: f != temporary ==> SameIn(s.installed.value, t.installed.value, f))
            && (!p.staged && temporary in s.installed.value ==> SameIn(s.installed.value, t.installed.value, temporary))
            && (p.staged || temporary !in s.installed.value ==>
                  if leftFile.Some? then Holds(t.installed.value, temporary, leftFile.value)
                  else temporary !in t.installed.value)
  {
    assert s.holder == Some(pid);
  }

  /** A client's files come and go without the lock, whatever anyone else is doing; no other file does. */
  lemma ClientFileLeads(s: State, f: File, content: Content)
    requires s.installed.Some?
    ensures Step(s, IssueFile(f, content)).Some? <==> (f.ClientPem? || f.ClientKey?) && f !in s.installed.value
    ensures Step(s, DiscardFile(f)).Some? <==> f.ClientPem? || f.ClientKey?
    ensures forall a :: a in [IssueFile(f, content), DiscardFile(f)] && Step(s, a).Some? ==>
              var t := Step(s, a).value;
              && t == s.(installed := t.installed) && t.installed.Some?
              && (forall g :: g != f ==> SameIn(s.installed.value, t.installed.value, g))
              && (if a.IssueFile? then Holds(t.installed.value, f, content) else f !in t.installed.value)
  {
  }

  // ---- recovery ------------------------------------------------------------------------------------------------

  ghost predicate InstalledComplete(s: State) {
    s.installed.Some? ==> Complete(s.installed.value)
  }

  lemma StepKeepsComplete(s: State, a: Action)
    requires Inv(s) && InstalledComplete(s) && Step(s, a).Some?
    ensures InstalledComplete(Step(s, a).value)
  {
    hide Matched, Decide;
    match a
    case Install(pid) => InstallationMatches(s.staging[pid], s.processes[pid].host, s.processes[pid].generated);
    case Replace(pid) => assert s.holder == Some(pid);
    case Stop(pid, _, _) => assert s.processes[pid].Rotating? ==> s.holder == Some(pid);
    case _ =>
  }

  /** Crashes never leave the directory incomplete: half-written files only ever lie under temporary names. */
  lemma {:induction false} RunKeepsComplete(s: State, actions: seq<Action>)
    requires Inv(s) && InstalledComplete(s) && Run(s, actions).Some?
    ensures InstalledComplete(Run(s, actions).value)
    decreases |actions|
  {
    hide Inv, InstalledComplete, Step;
    if |actions| > 0 {
      StepKeepsComplete(s, actions[0]);
      StepKeepsInv(s, actions[0]);
      RunKeepsComplete(Step(s, actions[0]).value, actions[1..]);
    }
  }

  /**
   Starting without a directory, or with a complete one, the callback's certificate
   always carries the identifier of the CA's key, and there is one.
   */
  lemma CallbackSeesIdentifier(installed: Option<Dir>, staging: map<Pid, Dir>, actions: seq<Action>, pid: Pid)
    requires installed.Some? ==> Complete(installed.value)
    requires Run(Idle(installed, staging), actions).Some?
    requires var s := Run(Idle(installed, staging), actions).value; pid in s.processes && s.processes[pid] == Using
    ensures var s := Run(Idle(installed, staging), actions).value;
            && s.installed.Some? && Complete(s.installed.value) && Matched(s.installed.value)
            && s.installed.value[ServerPem].authority == s.installed.value[CaPem].subject
  {
    hide Step;
    CallbackSeesMatched(installed, staging, actions, pid);
    RunKeepsComplete(Idle(installed, staging), actions);
  }

  lemma {:induction false} RunAppend(s: State, first: seq<Action>, rest: seq<Action>)
    ensures Run(s, first + rest) == if Run(s, first).Some? then Run(Run(s, first).value, rest) else None
    decreases |first|
  {
    hide Step;
    if |first| == 0 {
      assert first + rest == rest;
    } else {
      assert (first + rest)[1..] == first[1..] + rest;
      if Step(s, first[0]).Some? { RunAppend(Step(s, first[0]).value, first[1..], rest); }
    }
  }

  lemma RunOne(s: State, a: Action)
    ensures Run(s, [a]) == Step(s, a)
  {
    hide Step;
    assert [a][1..] == [];
  }

  lemma RunTwo(s: State, a: Action, b: Action)
    ensures Run(s, [a, b]) == if Step(s, a).Some? then Step(Step(s, a).value, b) else None
  {
    hide Step;
    RunOne(s, a);
    if Step(s, a).Some? { RunOne(Step(s, a).value, b); }
    RunAppend(s, [a], [b]);
    assert [a] + [b] == [a, b];
  }

  /** None of the temporary files of a rotation by this process exists. */
  ghost predicate NoLeftovers(dir: Dir, pid: Pid) {
    Temporary(ServerPem, pid) !in dir && Temporary(ServerKey, pid) !in dir && Temporary(HostnameFile, pid) !in dir
  }

  /** One replacement goes through exactly if its temporary file can be created, and moves on to the next file. */
  lemma ReplaceOne(s: State, pid: Pid)
    requires Inv(s) && pid in s.processes && s.processes[pid].Rotating? && !s.processes[pid].staged && s.installed.Some?
    ensures s.processes[pid].done < 3
    ensures var p := s.processes[pid];
            var f := NewServer(p.host, p.ca, p.generated)[p.done].file;
            var end := Run(s, [WriteFile(pid), Replace(pid)]);
            && (end.Some? <==> Temporary(f, pid) !in s.installed.value)
            && (end.Some? ==>
                  && Inv(end.value) && pid in end.value.processes && end.value.installed.Some?
                  && end.value.processes[pid] == (if p.done == 2 then Using else p.(done := p.done + 1))
                  && InPlace(end.value.installed.value, NewServer(p.host, p.ca, p.generated), p.done + 1)
                  && SameIn(s.installed.value, end.value.installed.value, CaPem)
                  && SameIn(s.installed.value, end.value.installed.value, CaKey)
                  && forall g: File :: g != f ==>
                                         (Temporary(g, pid) in end.value.installed.value <==>
                                          Temporary(g, pid) in s.installed.value))
  {
    hide Matched;
    assert s.holder == Some(pid);
    var files := NewServer(s.processes[pid].host, s.processes[pid].ca, s.processes[pid].generated);
    var f := files[s.processes[pid].done].file;
    RunTwo(s, WriteFile(pid), Replace(pid));
    if Temporary(f, pid) !in s.installed.value {
      var written := Step(s, WriteFile(pid)).value;
      StepKeepsInv(s, WriteFile(pid));
      StepKeepsInv(written, Replace(pid));
      var dir, grown := s.installed.value, written.installed.value;
      assert Step(written, Replace(pid)).value.installed.value
          == grown[f := grown[Temporary(f, pid)]] - {Temporary(f, pid)};
      assert f != Temporary(f, pid) && !f.Temporary?;
    }
  }

  function ReplaceAll(pid: Pid): seq<Action> {
    [WriteFile(pid), Replace(pid)] + [WriteFile(pid), Replace(pid)] + [WriteFile(pid), Replace(pid)]
  }

  /** All three replacements go through exactly if none of their temporary files is left over. */
  lemma ReplacesAll(s: State, pid: Pid)
    requires Inv(s) && pid in s.processes && s.installed.Some?
    requires s.processes[pid].Rotating? && s.processes[pid].done == 0 && !s.processes[pid].staged
    ensures var end := Run(s, ReplaceAll(pid));
            && (end.Some? <==> NoLeftovers(s.installed.value, pid))
            && (end.Some? ==>
                  && Inv(end.value) && pid in end.value.processes && end.value.processes[pid] == Using
                  && var p := s.processes[pid];
                  && end.value.installed.Some?
                  && InPlace(end.value.installed.value, NewServer(p.host, p.ca, p.generated), 3)
                  && SameIn(s.installed.value, end.value.installed.value, CaPem)
                  && SameIn(s.installed.value, end.value.installed.value, CaKey))
  {
    hide Inv, Step;
    var one := [WriteFile(pid), Replace(pid)];
    ReplaceOne(s, pid);
    RunAppend(s, one, one);
    RunAppend(s, one + one, one);
    if Run(s, one).Some? {
      var s1 := Run(s, one).value;
      ReplaceOne(s1, pid);
      if Run(s1, one).Some? { ReplaceOne(Run(s1, one).value, pid); }
    }
  }

  /** The steps of one uninterrupted call of `with_tls_material_at`. */
  function Call(pid: Pid, host: string, g: Generated, rotate: bool): seq<Action> {
    [Begin(pid, host), Acquire(pid), Inspect(pid, g)]
    + if rotate then ReplaceAll(pid) else []
  }

  lemma CallInspects(s: State, pid: Pid, host: string, g: Generated)
    requires Inv(s) && s.installed.Some? && Complete(s.installed.value) && s.holder == None
    requires pid !in s.processes && !IsBlank(host)
    ensures var dir := s.installed.value;
            var r := Run(s, [Begin(pid, host), Acquire(pid), Inspect(pid, g)]);
            && r.Some? && Inv(r.value) && r.value.installed == s.installed && pid in r.value.processes
            && (Decide(dir, host) == Keep || Decide(dir, host) == Rotate)
            && r.value.processes[pid]
               == if Decide(dir, host) == Keep then Using else Rotating(host, g, dir[CaPem], 0, false)
  {
    var actions := [Begin(pid, host), Acquire(pid), Inspect(pid, g)];
    var s1 := Step(s, actions[0]).value;
    var s2 := Step(s1, actions[1]).value;
    var s3 := Step(s2, actions[2]).value;
    StepKeepsInv(s, actions[0]);
    StepKeepsInv(s1, actions[1]);
    StepKeepsInv(s2, actions[2]);
    RunTwo(s, actions[0], actions[1]);
    RunOne(s2, actions[2]);
    RunAppend(s, [actions[0], actions[1]], [actions[2]]);
    assert actions == [actions[0], actions[1]] + [actions[2]];
  }

  /** After a rotation for a hostname, the same request finds nothing to rotate. */
  lemma RotatedIsKept(before: Dir, after: Dir, host: string, g: Generated)
    requires IsCertificate(before, CaPem) && before[CaPem].subject.Some? && CaKey in before
    requires InPlace(after, NewServer(host, before[CaPem], g), 3)
    requires SameIn(before, after, CaPem) && SameIn(before, after, CaKey)
    ensures Decide(after, host) == Keep
  {
    var files := NewServer(host, before[CaPem], g);
    RotationMatches(after, host, before[CaPem], g);
    assert Holds(after, files[2].file, files[2].content);
    KeepsExactly(after, host);
  }

  /**
   Recovery: from any reachable state with a complete directory, whatever mix of old
   and new server files a crash left in it, an uninterrupted call reaches its
   callback exactly if nothing has to be rotated, or no temporary file of an earlier
   process of its number is left over; and then with matching files.
   */
  lemma Recovers(s: State, pid: Pid, host: string, g: Generated)
    requires Inv(s) && s.installed.Some? && Complete(s.installed.value) && s.holder == None
    requires pid !in s.processes && !IsBlank(host)
    ensures var end := Run(s, Call(pid, host, g, Decide(s.installed.value, host) == Rotate));
            && (end.Some? <==> Decide(s.installed.value, host) == Keep || NoLeftovers(s.installed.value, pid))
            && (end.Some? ==>
                  && pid in end.value.processes && end.value.processes[pid] == Using
                  && end.value.installed.Some? && Matched(end.value.installed.value)
                  && Decide(end.value.installed.value, host) == Keep)
  {
    var dir := s.installed.value;
    assert CaKey in dir && IsCertificate(dir, CaPem) && dir[CaPem].subject.Some?;
    hide Step, Matched, Complete, IsBlank, NoLeftovers, Decide, InPlace;
    CallInspects(s, pid, host, g);
    var inspect := [Begin(pid, host), Acquire(pid), Inspect(pid, g)];
    var s0 := Run(s, inspect).value;
    if Decide(s.installed.value, host) == Rotate {
      ReplacesAll(s0, pid);
      RunAppend(s, inspect, ReplaceAll(pid));
      if Run(s0, ReplaceAll(pid)).Some? {
        RotatedIsKept(dir, Run(s0, ReplaceAll(pid)).value.installed.value, host, g);
      }
    } else {
      assert inspect + [] == inspect;
    }
  }

  // ---- the first installation -------------------------------------------------------------------------------------

  /** The first entries, as files of an otherwise empty directory. */
  ghost function Placed(entries: seq<Entry>, n: nat): Dir
    requires n <= |entries|
  {
    if n == 0 then map[] else Placed(entries, n - 1)[entries[n - 1].file := entries[n - 1].content]
  }

  lemma {:induction false} PlacedIs(entries: seq<Entry>, n: nat)
    requires n <= |entries| && forall i, j :: 0 <= i < j < |entries| ==> entries[i].file != entries[j].file
    ensures forall f :: f in Placed(entries, n) ==> exists i :: 0 <= i < n && entries[i].file == f
    ensures InPlace(Placed(entries, n), entries, n)
    ensures n < |entries| ==> entries[n].file !in Placed(entries, n)
  {
    if n > 0 { PlacedIs(entries, n - 1); }
  }

  ghost function Created(s: State, pid: Pid, host: string, g: Generated, n: nat): State
    requires n <= 5
  {
    State(
      s.installed, s.staging[pid := Placed(NewInstallation(host, g), n)], Some(pid),
      s.processes[pid := Creating(host, g, n)])
  }

  lemma WriteNext(s: State, pid: Pid, host: string, g: Generated, n: nat)
    requires n < 5
    ensures Step(Created(s, pid, host, g, n), WriteFile(pid)) == Some(Created(s, pid, host, g, n + 1))
  {
    PlacedIs(NewInstallation(host, g), n);
    var before, after := Created(s, pid, host, g, n), Created(s, pid, host, g, n + 1);
    assert before.staging[pid := Placed(NewInstallation(host, g), n + 1)] == after.staging;
    assert before.processes[pid := Creating(host, g, n + 1)] == after.processes;
  }

  function Writes(pid: Pid, n: nat): seq<Action> {
    if n == 0 then [] else [WriteFile(pid)] + Writes(pid, n - 1)
  }

  lemma {:induction false} WritesAll(s: State, pid: Pid, host: string, g: Generated, n: nat)
    requires n <= 5
    ensures Run(Created(s, pid, host, g, n), Writes(pid, 5 - n)) == Some(Created(s, pid, host, g, 5))
    decreases 5 - n
  {
    hide Created, Step;
    if n < 5 {
      WriteNext(s, pid, host, g, n);
      WritesAll(s, pid, host, g, n + 1);
      assert Writes(pid, 5 - n)[1..] == Writes(pid, 4 - n);
    }
  }

  /** The steps of one uninterrupted call that finds nothing installed. */
  function FirstCall(pid: Pid, host: string, g: Generated): seq<Action> {
    [Begin(pid, host), Acquire(pid)] + ([Inspect(pid, g), WriteFile(pid)] + (Writes(pid, 4) + [Install(pid)]))
  }

  lemma InstallStarts(s: State, pid: Pid, host: string, g: Generated)
    requires s.installed.None? && s.holder == None && pid !in s.processes && !IsBlank(host)
    ensures var locked := At(s, pid, Locked(host)).(holder := Some(pid));
            && Run(s, [Begin(pid, host), Acquire(pid)]) == Some(locked)
            && Run(locked, [Inspect(pid, g), WriteFile(pid)])
               == if pid in s.staging then None else Some(Created(s, pid, host, g, 1))
  {
    hide Run, IsBlank, Decide;
    var waiting := At(s, pid, Waiting(host));
    var locked := At(s, pid, Locked(host)).(holder := Some(pid));
    assert waiting.processes[pid := Locked(host)] == locked.processes;
    RunTwo(s, Begin(pid, host), Acquire(pid));
    RunTwo(locked, Inspect(pid, g), WriteFile(pid));
    if pid !in s.staging {
      assert locked.processes[pid := Creating(host, g, 0)] == s.processes[pid := Creating(host, g, 0)];
      assert Step(locked, Inspect(pid, g)) == Some(Created(s, pid, host, g, 0));
      WriteNext(s, pid, host, g, 0);
    }
  }

  /**
   With nothing installed, whatever earlier processes left in directories of their
   own, a call installs a complete directory with matching files and reaches its
   callback, exactly if no such directory of an earlier process of its number exists.
   */
  lemma Installs(s: State, pid: Pid, host: string, g: Generated)
    requires s.installed.None? && s.holder == None && pid !in s.processes && !IsBlank(host)
    ensures var end := Run(s, FirstCall(pid, host, g));
            && (end.Some? <==> pid !in s.staging)
            && (end.Some? ==>
                  && pid in end.value.processes && end.value.processes[pid] == Using
                  && end.value.installed.Some? && Complete(end.value.installed.value)
                  && Matched(end.value.installed.value) && Decide(end.value.installed.value, host) == Keep)
  {
    hide Complete, Matched, IsBlank, Step, Run, Created, Writes, Decide;
    InstallStarts(s, pid, host, g);
    var locked := At(s, pid, Locked(host)).(holder := Some(pid));
    var starts, writes := [Inspect(pid, g), WriteFile(pid)], Writes(pid, 4) + [Install(pid)];
    RunAppend(locked, starts, writes);
    RunAppend(s, [Begin(pid, host), Acquire(pid)], starts + writes);
    if pid !in s.staging { InstallsWritten(s, pid, host, g); }
  }

  lemma InstallsWritten(s: State, pid: Pid, host: string, g: Generated)
    requires s.installed.None?
    ensures var end := Run(Created(s, pid, host, g, 1), Writes(pid, 4) + [Install(pid)]);
            && end.Some? && pid in end.value.processes && end.value.processes[pid] == Using
            && end.value.installed.Some? && Complete(end.value.installed.value) && Matched(end.value.installed.value)
            && Decide(end.value.installed.value, host) == Keep
  {
    hide Complete, Matched, Created, Step, Decide;
    WritesAll(s, pid, host, g, 1);
    RunAppend(Created(s, pid, host, g, 1), Writes(pid, 4), [Install(pid)]);
    RunOne(Created(s, pid, host, g, 5), Install(pid));
    InstallStep(s, pid, host, g);
  }

  lemma InstallStep(s: State, pid: Pid, host: string, g: Generated)
    requires s.installed.None?
    ensures var end := Step(Created(s, pid, host, g, 5), Install(pid));
            && end.Some? && pid in end.value.processes && end.value.processes[pid] == Using
            && end.value.installed.Some? && Complete(end.value.installed.value) && Matched(end.value.installed.value)
            && Decide(end.value.installed.value, host) == Keep
  {
    PlacedIs(NewInstallation(host, g), 5);
    InstalledIsKept(Placed(NewInstallation(host, g), 5), host, g);
    hide Placed, InPlace, Complete, Matched, Decide;
  }

  lemma InstalledIsKept(dir: Dir, host: string, g: Generated)
    requires InPlace(dir, NewInstallation(host, g), 5)
    ensures Complete(dir) && Matched(dir) && Decide(dir, host) == Keep
  {
    var files := NewInstallation(host, g);
    InstallationMatches(dir, host, g);
    assert Holds(dir, files[4].file, files[4].content);
    KeepsExactly(dir, host);
  }
}
