/**
 The cache as several processes share it: every interleaving of the file steps of
 `put`, `get` and `evict`, crashes between any two of them, and damage to data files.

 A write opens the file, which empties it, and then writes its whole text at the
 front in one call. A process that unlinks a file does not disturb one that holds it
 open, so files are inodes and a name only points at one.
 */
module CacheInterleavings {
  import opened Wrappers
  import opened Text
  import opened Cache
  import C = Canonical

  // What a metadata file says, the digest of the data, and where both files are.
  datatype Codes = Codes(
    key: string -> string,
    digest: string -> string,
    render: Meta -> string,
    parse: string -> Option<Meta>)

  predicate Closed(text: string) {
    text != "" && text[|text| - 1] == '}'
  }

  // The digest has no collisions; metadata is printed as a JSON object, and reading it
  // back accepts that object but nothing empty and nothing with a brace after the object.
  // About the key hash nothing is assumed.
  ghost predicate Sane(c: Codes) {
    && (forall a, b :: c.digest(a) == c.digest(b) ==> a == b)
    && (forall m :: Closed(c.render(m)) && c.parse(c.render(m)) == Some(m))
    && (forall m, tail :: Closed(tail) ==> c.parse(c.render(m) + tail) == None)
    && c.parse("") == None
  }

  datatype Put = Put(identity: string, url: string, bytes: string, now: nat)

  function MetaFor(c: Codes, p: Put): Meta {
    Meta(p.identity, p.url, p.now, c.digest(p.bytes))
  }

  // What a `get` returned.
  datatype Answer = Answer(identity: string, bytes: string, meta: Meta)

  // Where a process is in the operation it runs.
  datatype Process =
    | Idle
    | Putting(put: Put)
    | HasData(put: Put, fd: nat)
    | DataWritten(put: Put)
    | HasMeta(put: Put, fd: nat)
    | Getting(id: string)
    | HasRead(id: string, bytes: string)
    | Dropping(id: string)
    | DataDropped(id: string)

  // A directory of one kind of file: names point at inodes, inodes hold text.
  datatype Folder = Folder(names: map<string, nat>, inodes: seq<string>) {

    // Open for writing: the file is emptied, or created empty.
    function Create(name: string): (Folder, nat) {
      if name in names && names[name] < |inodes| then (Folder(names, inodes[names[name] := ""]), names[name])
      else (Folder(names[name := |inodes|], inodes + [""]), |inodes|)
    }

    // Write at the front; what was longer stays behind it.
    function Write(fd: nat, text: string): Folder {
      if fd < |inodes| then Folder(names, inodes[fd := Overlay(inodes[fd], text)]) else this
    }

    function Read(name: string): Option<string> {
      if name in names && names[name] < |inodes| then Some(inodes[names[name]]) else None
    }

    function Unlink(name: string): Folder {
      Folder(names - {name}, inodes)
    }
  }

  function Overlay(before: string, text: string): string {
    if |before| > |text| then text + before[|text|..] else text
  }

  datatype State = State(
    data: Folder,
    metas: Folder,
    procs: map<nat, Process>,
    puts: seq<Put>,
    answers: seq<Answer>)

  const INITIAL := State(Folder(map[], []), Folder(map[], []), map[], [], [])

  datatype Event =
    | StartPut(pid: nat, put: Put)
    | StartGet(pid: nat, id: string)
    | StartEvict(pid: nat, id: string)
    | Proceed(pid: nat)
    | Crash(pid: nat)
    | Damage(inode: nat, text: string)

  function ProcessOf(s: State, pid: nat): Process {
    if pid in s.procs then s.procs[pid] else Idle
  }

  function At(s: State, pid: nat, p: Process): State {
    s.(procs := s.procs[pid := p])
  }

  // The next file step of one process.
  function Advance(c: Codes, s: State, pid: nat): State {
    match ProcessOf(s, pid)
    case Idle => s
    case Putting(p) =>
      var (data, fd) := s.data.Create(c.key(p.identity));
      At(s.(data := data), pid, HasData(p, fd))
    case HasData(p, fd) => At(s.(data := s.data.Write(fd, p.bytes)), pid, DataWritten(p))
    case DataWritten(p) =>
      var (metas, fd) := s.metas.Create(c.key(p.identity));
      At(s.(metas := metas), pid, HasMeta(p, fd))
    case HasMeta(p, fd) => At(s.(metas := s.metas.Write(fd, c.render(MetaFor(c, p)))), pid, Idle)
    case Getting(id) =>
      (match s.data.Read(c.key(id))
       case None => At(s, pid, Idle)
       case Some(bytes) => At(s, pid, HasRead(id, bytes)))
    case HasRead(id, bytes) =>
      (match s.metas.Read(c.key(id))
       case None => At(s, pid, Idle)
       case Some(text) =>
         match c.parse(text)
         case None => At(s, pid, Idle)
         case Some(meta) =>
           if meta.identity != id || c.digest(bytes) != meta.sha256 then At(s, pid, Dropping(id))
           else At(s.(answers := s.answers + [Answer(id, bytes, meta)]), pid, Idle))
    case Dropping(id) => At(s.(data := s.data.Unlink(c.key(id))), pid, DataDropped(id))
    case DataDropped(id) => At(s.(metas := s.metas.Unlink(c.key(id))), pid, Idle)
  }

  // Operations start only in an idle process; anything may crash, and data may rot, at any time.
  function Step(c: Codes, s: State, e: Event): State {
    match e
    case StartPut(pid, p) =>
      if ProcessOf(s, pid).Idle? then At(s.(puts := s.puts + [p]), pid, Putting(p)) else s
    case StartGet(pid, id) => if ProcessOf(s, pid).Idle? then At(s, pid, Getting(id)) else s
    case StartEvict(pid, id) => if ProcessOf(s, pid).Idle? then At(s, pid, Dropping(id)) else s
    case Proceed(pid) => Advance(c, s, pid)
    case Crash(pid) => At(s, pid, Idle)
    case Damage(inode, text) =>
      if inode < |s.data.inodes| then s.(data := Folder(s.data.names, s.data.inodes[inode := text])) else s
  }

  function Run(c: Codes, events: seq<Event>): State {
    if events == [] then INITIAL
    else Step(c, Run(c, events[..|events| - 1]), events[|events| - 1])
  }

  // ----- the invariant -----

  // A metadata text is empty, or starts with the whole text of one put's metadata and
  // ends with a brace.
  ghost predicate FromPut(c: Codes, puts: seq<Put>, text: string) {
    text == "" || (Closed(text) && exists i :: 0 <= i < |puts| && c.render(MetaFor(c, puts[i])) <= text)
  }

  ghost predicate Known(puts: seq<Put>, p: Process) {
    match p
    case Putting(put) => put in puts
    case HasData(put, _) => put in puts
    case DataWritten(put) => put in puts
    case HasMeta(put, _) => put in puts
    case _ => true
  }

  // An answer is all of one put's.
  ghost predicate Genuine(puts: seq<Put>, a: Answer) {
    exists i :: 0 <= i < |puts| &&
      puts[i] == Put(a.identity, a.meta.url, a.bytes, a.meta.fetchedAt) && a.meta.identity == a.identity
  }

  ghost predicate Invariant(c: Codes, s: State) {
    && (forall i :: 0 <= i < |s.metas.inodes| ==> FromPut(c, s.puts, s.metas.inodes[i]))
    && (forall pid :: pid in s.procs ==> Known(s.puts, s.procs[pid]))
    && (forall i :: 0 <= i < |s.answers| ==> Genuine(s.puts, s.answers[i]))
  }

  lemma NothingAfterObject(c: Codes, m: Meta, tail: string)
    requires Sane(c) && Closed(tail)
    ensures c.parse(c.render(m) + tail) == None
  {
  }

  // Metadata that can be read is the metadata of one put.
  lemma ReadableMeta(c: Codes, puts: seq<Put>, text: string) returns (i: nat)
    requires Sane(c) && FromPut(c, puts, text) && c.parse(text).Some?
    ensures i < |puts| && c.parse(text) == Some(MetaFor(c, puts[i]))
  {
    i :| 0 <= i < |puts| && c.render(MetaFor(c, puts[i])) <= text;
    var head := c.render(MetaFor(c, puts[i]));
    var tail := text[|head|..];
    assert text == head + tail;
    if tail == "" {
      assert text == head;
    } else {
      assert tail[|tail| - 1] == text[|text| - 1];
      NothingAfterObject(c, MetaFor(c, puts[i]), tail);
    }
  }

  // So an answer's data, whose digest the metadata names, is that put's data too.
  lemma AnswerGenuine(c: Codes, puts: seq<Put>, id: string, bytes: string, text: string)
    requires Sane(c) && FromPut(c, puts, text) && c.parse(text).Some?
    requires c.parse(text).value.identity == id && c.digest(bytes) == c.parse(text).value.sha256
    ensures Genuine(puts, Answer(id, bytes, c.parse(text).value))
  {
    var i := ReadableMeta(c, puts, text);
    assert puts[i] == Put(id, c.parse(text).value.url, bytes, c.parse(text).value.fetchedAt);
  }

  lemma OverlayFromPut(c: Codes, puts: seq<Put>, text: string, i: nat)
    requires Sane(c) && FromPut(c, puts, text) && i < |puts|
    ensures FromPut(c, puts, Overlay(text, c.render(MetaFor(c, puts[i]))))
  {
    var head := c.render(MetaFor(c, puts[i]));
    assert Closed(head);
    assert head <= Overlay(text, head);
  }

  lemma MorePuts(c: Codes, s: State, s1: State, p: Put)
    requires Invariant(c, s)
    requires s1.puts == s.puts + [p] && s1.metas == s.metas && s1.answers == s.answers
    requires forall pid :: pid in s1.procs ==>
      (pid in s.procs && s1.procs[pid] == s.procs[pid]) || s1.procs[pid] == Putting(p)
    ensures Invariant(c, s1)
  {
    assert p in s1.puts by {
      assert s1.puts[|s.puts|] == p;
    }
    forall text | FromPut(c, s.puts, text) ensures FromPut(c, s1.puts, text) {
      if text != "" {
        var i :| 0 <= i < |s.puts| && c.render(MetaFor(c, s.puts[i])) <= text;
        assert s1.puts[i] == s.puts[i];
      }
    }
    forall a | Genuine(s.puts, a) ensures Genuine(s1.puts, a) {
      var i :| 0 <= i < |s.puts| && s.puts[i] == Put(a.identity, a.meta.url, a.bytes, a.meta.fetchedAt);
      assert s1.puts[i] == s.puts[i];
    }
  }

  lemma WriteMetaKeeps(c: Codes, s: State, pid: nat)
    requires Sane(c) && Invariant(c, s) && ProcessOf(s, pid).HasMeta?
    ensures Invariant(c, Advance(c, s, pid))
  {
    var HasMeta(p, fd) := ProcessOf(s, pid);
    if fd < |s.metas.inodes| {
      var i :| 0 <= i < |s.puts| && s.puts[i] == p;
      OverlayFromPut(c, s.puts, s.metas.inodes[fd], i);
    }
  }

  lemma ReadMetaKeeps(c: Codes, s: State, pid: nat)
    requires Sane(c) && Invariant(c, s) && ProcessOf(s, pid).HasRead?
    ensures Invariant(c, Advance(c, s, pid))
  {
    var HasRead(id, bytes) := ProcessOf(s, pid);
    var text := s.metas.Read(c.key(id));
    if text.Some? && c.parse(text.value).Some? {
      var meta := c.parse(text.value).value;
      if meta.identity == id && c.digest(bytes) == meta.sha256 {
        AnswerGenuine(c, s.puts, id, bytes, text.value);
      }
    }
  }

  lemma AdvanceKeeps(c: Codes, s: State, pid: nat)
    requires Sane(c) && Invariant(c, s)
    ensures Invariant(c, Advance(c, s, pid)) && Advance(c, s, pid).puts == s.puts
  {
    match ProcessOf(s, pid) {
      case HasMeta(_, _) => WriteMetaKeeps(c, s, pid);
      case HasRead(_, _) => ReadMetaKeeps(c, s, pid);
      case _ =>
    }
  }

  lemma StepKeeps(c: Codes, s: State, e: Event)
    requires Sane(c) && Invariant(c, s)
    ensures Invariant(c, Step(c, s, e)) && s.puts <= Step(c, s, e).puts
  {
    match e {
      case StartPut(pid, p) =>
        if ProcessOf(s, pid).Idle? {
          MorePuts(c, s, Step(c, s, e), p);
        }
      case Proceed(pid) => AdvanceKeeps(c, s, pid);
      case _ =>
    }
  }

  // In every run, whatever the interleaving, every answer has its bytes, url, identity and
  // fetch time from one single put that had been started under that identity.
  lemma {:induction false} AnswersGenuine(c: Codes, events: seq<Event>)
    requires Sane(c)
    ensures Invariant(c, Run(c, events))
    ensures forall i :: 0 <= i < |Run(c, events).answers| ==> Genuine(Run(c, events).puts, Run(c, events).answers[i])
  {
    if events != [] {
      AnswersGenuine(c, events[..|events| - 1]);
      StepKeeps(c, Run(c, events[..|events| - 1]), events[|events| - 1]);
    }
  }

  // And the put comes earlier: when a step answers, it had been started before that step.
  lemma AnswerAfterPut(c: Codes, s: State, e: Event)
    requires Sane(c) && Invariant(c, s) && |Step(c, s, e).answers| > |s.answers|
    ensures Step(c, s, e).answers[..|s.answers|] == s.answers
    ensures |Step(c, s, e).answers| == |s.answers| + 1 && Genuine(s.puts, Step(c, s, e).answers[|s.answers|])
  {
    StepKeeps(c, s, e);
    AdvanceKeeps(c, s, e.pid);
  }

  // ----- a get that follows an undisturbed put -----

  function Alone(c: Codes, s: State, pid: nat, n: nat): State
    decreases n
  {
    if n == 0 then s else Alone(c, Advance(c, s, pid), pid, n - 1)
  }

  lemma CreateWriteRead(f: Folder, name: string, text: string)
    ensures var (g, fd) := f.Create(name); g.Write(fd, text).Read(name) == Some(text)
  {
  }

  // The four file steps of a put, run alone, leave both files holding what it wrote,
  // whatever was there before.
  lemma PutAlone(c: Codes, s: State, pid: nat, p: Put)
    requires Sane(c) && ProcessOf(s, pid) == Putting(p)
    ensures var s1 := Alone(c, s, pid, 4);
      && ProcessOf(s1, pid).Idle? && s1.answers == s.answers
      && s1.data.Read(c.key(p.identity)) == Some(p.bytes)
      && s1.metas.Read(c.key(p.identity)) == Some(c.render(MetaFor(c, p)))
  {
    CreateWriteRead(s.data, c.key(p.identity), p.bytes);
    CreateWriteRead(s.metas, c.key(p.identity), c.render(MetaFor(c, p)));
    var a := Advance(c, s, pid);
    var b := Advance(c, a, pid);
    var d := Advance(c, b, pid);
    assert Alone(c, s, pid, 4) == Alone(c, a, pid, 3) == Alone(c, b, pid, 2) == Alone(c, d, pid, 1);
    assert Alone(c, d, pid, 1) == Advance(c, d, pid);
  }

  // Cut off on the way, it leaves the data first emptied, then written, and then the metadata
  // emptied: never metadata of data that is not there yet.
  lemma PutInterrupted(c: Codes, s: State, pid: nat, p: Put)
    requires ProcessOf(s, pid) == Putting(p)
    ensures Alone(c, s, pid, 1).data.Read(c.key(p.identity)) == Some("") && Alone(c, s, pid, 1).metas == s.metas
    ensures Alone(c, s, pid, 2).data.Read(c.key(p.identity)) == Some(p.bytes) && Alone(c, s, pid, 2).metas == s.metas
    ensures Alone(c, s, pid, 3).data.Read(c.key(p.identity)) == Some(p.bytes)
    ensures Alone(c, s, pid, 3).metas.Read(c.key(p.identity)) == Some("")
  {
    CreateWriteRead(s.data, c.key(p.identity), p.bytes);
    var a := Advance(c, s, pid);
    var b := Advance(c, a, pid);
    assert Alone(c, s, pid, 1) == a && Alone(c, a, pid, 1) == b;
    assert Alone(c, s, pid, 2) == b && Alone(c, s, pid, 3) == Alone(c, a, pid, 2) == Alone(c, b, pid, 1);
    assert Alone(c, b, pid, 1) == Advance(c, b, pid);
  }

  // A get from such files answers with exactly that put.
  lemma GetAlone(c: Codes, s: State, pid: nat, p: Put)
    requires Sane(c) && ProcessOf(s, pid) == Getting(p.identity)
    requires s.data.Read(c.key(p.identity)) == Some(p.bytes)
    requires s.metas.Read(c.key(p.identity)) == Some(c.render(MetaFor(c, p)))
    ensures Alone(c, s, pid, 2).answers == s.answers + [Answer(p.identity, p.bytes, MetaFor(c, p))]
  {
    var a := Advance(c, s, pid);
    assert a == At(s, pid, HasRead(p.identity, p.bytes));
    assert Alone(c, s, pid, 2) == Alone(c, a, pid, 1) == Advance(c, a, pid);
  }

  // The two steps of an evict, run alone, take both files away and no other.
  lemma EvictAlone(c: Codes, s: State, pid: nat, id: string)
    requires ProcessOf(s, pid) == Dropping(id)
    ensures Dropped(c, s, Alone(c, s, pid, 2), id) && ProcessOf(Alone(c, s, pid, 2), pid).Idle?
    ensures Alone(c, s, pid, 2).answers == s.answers
  {
    var a := Advance(c, s, pid);
    assert ProcessOf(a, pid) == DataDropped(id);
    assert Alone(c, s, pid, 2) == Alone(c, a, pid, 1) == Advance(c, a, pid);
  }

  // Both files of an identity are gone, and every other can be read as before.
  ghost predicate Dropped(c: Codes, s: State, s1: State, id: string) {
    && s1.data.Read(c.key(id)) == None && s1.metas.Read(c.key(id)) == None
    && (forall name :: name != c.key(id) ==> s1.data.Read(name) == s.data.Read(name))
    && (forall name :: name != c.key(id) ==> s1.metas.Read(name) == s.metas.Read(name))
  }

  // Data and metadata that can both be read, and do not fit each other or the identity.
  predicate Misfit(c: Codes, s: State, id: string) {
    var data, text := s.data.Read(c.key(id)), s.metas.Read(c.key(id));
    && data.Some? && text.Some? && c.parse(text.value).Some?
    && (c.parse(text.value).value.identity != id || c.digest(data.value) != c.parse(text.value).value.sha256)
  }

  // A get, run alone, drops files that do not fit, and answers nothing.
  lemma MisfitDropped(c: Codes, s: State, pid: nat, id: string)
    requires ProcessOf(s, pid) == Getting(id) && Misfit(c, s, id)
    ensures Dropped(c, s, Alone(c, s, pid, 4), id) && Alone(c, s, pid, 4).answers == s.answers
  {
    var a := Advance(c, s, pid);
    assert a == At(s, pid, HasRead(id, s.data.Read(c.key(id)).value));
    var b := Advance(c, a, pid);
    assert ProcessOf(b, pid) == Dropping(id);
    EvictAlone(c, b, pid, id);
    assert Alone(c, s, pid, 4) == Alone(c, a, pid, 3) == Alone(c, b, pid, 2);
  }

  // It answers nothing either, and leaves all files alone, where one is missing or cannot be read.
  lemma NothingToGet(c: Codes, s: State, pid: nat, id: string)
    requires ProcessOf(s, pid) == Getting(id)
    requires var text := s.metas.Read(c.key(id));
      s.data.Read(c.key(id)).None? || text.None? || c.parse(text.value).None?
    ensures var s1 := Alone(c, s, pid, 2);
      s1.data == s.data && s1.metas == s.metas && s1.answers == s.answers && ProcessOf(s1, pid).Idle?
  {
    var a := Advance(c, s, pid);
    assert Alone(c, s, pid, 2) == Alone(c, a, pid, 1) == Advance(c, a, pid);
  }

  // ----- such codes exist -----

  // Metadata as an object; the time as its numeral, which has no upper bound here.
  function MetaJson(m: Meta): C.Json {
    C.Obj(map["identity" := C.Str(m.identity), "url" := C.Str(m.url),
              "fetchedAt" := C.Str(NatText(m.fetchedAt)), "sha256" := C.Str(m.sha256)])
  }

  lemma MetaJsonInjective(a: Meta, b: Meta)
    requires MetaJson(a) == MetaJson(b)
    ensures a == b
  {
    assert MetaJson(a).members["identity"] == MetaJson(b).members["identity"];
    assert MetaJson(a).members["url"] == MetaJson(b).members["url"];
    assert MetaJson(a).members["fetchedAt"] == MetaJson(b).members["fetchedAt"];
    assert MetaJson(a).members["sha256"] == MetaJson(b).members["sha256"];
    NatRoundTrip(a.fetchedAt);
    NatRoundTrip(b.fetchedAt);
  }

  ghost function RenderMeta(m: Meta): string {
    C.Form(MetaJson(m))
  }

  ghost function ParseMeta(text: string): Option<Meta> {
    if m :| RenderMeta(m) == text then Some(m) else None
  }

  // Canonical JSON objects for metadata, read back by whatever is written so, are what is assumed.
  lemma RenderedOnce(a: Meta, b: Meta, tail: string)
    requires RenderMeta(a) + tail == RenderMeta(b)
    ensures a == b && tail == ""
  {
    assert RenderMeta(b) == RenderMeta(b) + "";
    C.ObjReads(MetaJson(a), MetaJson(b), tail, "");
    MetaJsonInjective(a, b);
  }

  lemma ParseRendered(m: Meta)
    ensures Closed(RenderMeta(m)) && ParseMeta(RenderMeta(m)) == Some(m)
  {
    C.ObjectEndsInBrace(MetaJson(m));
    var n := ParseMeta(RenderMeta(m)).value;
    assert RenderMeta(n) + "" == RenderMeta(m);
    RenderedOnce(n, m, "");
  }

  lemma NothingParsedAfter(m: Meta, tail: string)
    requires Closed(tail)
    ensures ParseMeta(RenderMeta(m) + tail) == None
  {
    var read := ParseMeta(RenderMeta(m) + tail);
    if read.Some? {
      RenderedOnce(m, read.value, tail);
    }
  }

  lemma SaneIsPossible() returns (c: Codes)
    ensures Sane(c)
  {
    c := Codes((id: string) => id, (bytes: string) => bytes, (m: Meta) => RenderMeta(m), (t: string) => ParseMeta(t));
    forall m ensures Closed(c.render(m)) && c.parse(c.render(m)) == Some(m) {
      ParseRendered(m);
    }
    forall m, tail | Closed(tail) ensures c.parse(c.render(m) + tail) == None {
      NothingParsedAfter(m, tail);
    }
    if c.parse("").Some? {
      ParseRendered(c.parse("").value);
    }
  }
}
