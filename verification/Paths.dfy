/**
 Path targets: what the manifest validator accepts and what dispatch makes of a
 leading `~`, on Unix.
 */
module Paths {
  import opened Wrappers
  import opened Text

  // ----- the validator -----

  predicate IsSeparator(c: char) {
    c == '/' || c == '\\'
  }

  predicate IsLetter(c: char) {
    IsLower(c) || IsUpper(c)
  }

  // Both separators made one, so that splitting at `/` splits at either.
  function Slashed(s: string): (r: string)
    ensures |r| == |s| && forall i :: 0 <= i < |s| ==> r[i] == if s[i] == '\\' then '/' else s[i]
  {
    seq(|s|, i requires 0 <= i < |s| => if s[i] == '\\' then '/' else s[i])
  }

  function Pieces(s: string): seq<string> {
    Split(Slashed(s), '/')
  }

  predicate IsDot(seg: string) {
    seg == "." || seg == ".."
  }

  predicate StartsWithDrive(seg: string) {
    |seg| >= 2 && IsLetter(seg[0]) && seg[1] == ':'
  }

  predicate AnyEmpty(segs: seq<string>) {
    exists i :: 0 <= i < |segs| && segs[i] == ""
  }

  predicate AnyDot(segs: seq<string>) {
    exists i :: 0 <= i < |segs| && IsDot(segs[i])
  }

  predicate AnyDrive(segs: seq<string>) {
    exists i :: 0 <= i < |segs| && StartsWithDrive(segs[i])
  }

  predicate IsNetworkPath(target: string) {
    |target| >= 2 && IsSeparator(target[0]) && IsSeparator(target[1])
  }

  function StripLast(s: string, trailing: char -> bool): string {
    if s != "" && trailing(s[|s| - 1]) then s[..|s| - 1] else s
  }

  datatype PathError = Network | EmptySegment | Drive | NotAbsolute | DotSegment | NoHome | NotHomePath

  // What follows `~/`: no empty segment but a trailing one, and no drive letter.
  function CheckHomeRest(rest: string): Option<PathError> {
    var pieces := Pieces(StripLast(rest, IsSeparator));
    if AnyEmpty(pieces) then Some(EmptySegment) else if AnyDrive(pieces) then Some(Drive) else None
  }

  // The part of an absolute target that may not hold dot segments.
  function Body(target: string): Option<string> {
    if StartsWith(target, "~/") then Some(target[2..])
    else if StartsWith(target, "/") then Some(target[1..])
    else if |target| >= 3 && IsLetter(target[0]) && target[1] == ':' && IsSeparator(target[2]) then Some(target[3..])
    else None
  }

  function ValidatePath(target: string): Option<PathError> {
    var home := if StartsWith(target, "~/") && |target| > 2 then CheckHomeRest(target[2..]) else None;
    if IsNetworkPath(target) then Some(Network)
    else if home.Some? then home
    else if target == "~" then None
    else
      match Body(target)
      case None => Some(NotAbsolute)
      case Some(body) =>
        if AnyDot(Pieces(body)) then Some(DotSegment) else None
  }

  // ----- the expander -----

  // `PathBuf::push` of a relative segment.
  function Push(path: string, seg: string): string {
    if path == "" || path[|path| - 1] == '/' then path + seg else path + "/" + seg
  }

  function PushAll(path: string, segs: seq<string>): string {
    if segs == [] then path else Push(PushAll(path, segs[..|segs| - 1]), segs[|segs| - 1])
  }

  function FirstBad(segs: seq<string>): Option<PathError> {
    if segs == [] then None
    else if segs[0] == "" then Some(EmptySegment)
    else if IsDot(segs[0]) then Some(DotSegment)
    else FirstBad(segs[1..])
  }

  predicate IsSlash(c: char) {
    c == '/'
  }

  function Expand(home: Option<string>, target: string): Result<string, PathError> {
    if !StartsWith(target, "~") then Ok(target)
    else if home.None? then Err(NoHome)
    else if target == "~" then Ok(home.value)
    else if target[1] != '/' then Err(NotHomePath)
    else
      var rest := StripLast(target[2..], IsSlash);
      if rest == "" then Ok(home.value)
      else
        var segs := Split(rest, '/');
        match FirstBad(segs)
        case Some(e) => Err(e)
        case None => Ok(PushAll(home.value, segs))
  }

  // `expand_path`.
  method ExpandPath(home: Option<string>, target: string) returns (r: Result<string, PathError>)
    ensures r == Expand(home, target)
  {
    if !StartsWith(target, "~") {
      return Ok(target);
    }
    if home.None? {
      return Err(NoHome);
    }
    if target[1..] == "" {
      assert target == "~";
      return Ok(home.value);
    }
    if target[1] != '/' {
      return Err(NotHomePath);
    }
    var rest := StripLast(target[2..], IsSlash);
    var path := home.value;
    if rest == "" {
      return Ok(path);
    }
    var segs := Split(rest, '/');
    var i := 0;
    while i < |segs|
      invariant i <= |segs| && path == PushAll(home.value, segs[..i]) && FirstBad(segs[i..]) == FirstBad(segs)
    {
      assert segs[i..][1..] == segs[i + 1..] && segs[..i + 1][..i] == segs[..i];
      if segs[i] == "" {
        return Err(EmptySegment);
      }
      if IsDot(segs[i]) {
        return Err(DotSegment);
      }
      path := Push(path, segs[i]);
      i := i + 1;
    }
    assert segs[..i] == segs;
    return Ok(path);
  }

  // ----- agreement -----

  // A plain file name.
  predicate IsPlainSegment(seg: string) {
    seg != "" && !IsDot(seg) && '/' !in seg
  }

  predicate AllPlain(segs: seq<string>) {
    forall i :: 0 <= i < |segs| ==> IsPlainSegment(segs[i])
  }

  lemma Reassociate(head: string, tail: string, b: string, c: char)
    ensures head + [c] + tail + [c] + b == head + [c] + (tail + [c] + b)
  {
  }

  lemma SplitTail(head: string, tail: string, b: string, c: char)
    ensures [head] + (Split(tail, c) + Split(b, c)) == [head] + Split(tail, c) + Split(b, c)
  {
  }

  lemma {:induction false} SplitConcat(a: string, b: string, c: char)
    ensures Split(a + [c] + b, c) == Split(a, c) + Split(b, c)
    decreases |a|
  {
    match SplitOnce(a, c) {
      case None =>
        SplitOnceAt(a, b, c);
      case Some((head, tail)) =>
        var rest := tail + [c] + b;
        Reassociate(head, tail, b, c);
        SplitOnceAt(head, rest, c);
        SplitConcat(tail, b, c);
        SplitTail(head, tail, b, c);
    }
  }

  lemma PiecesStep(head: string, tail: string)
    ensures Pieces(head + ['/'] + tail) == Pieces(head) + Pieces(tail)
  {
    assert Slashed(head + ['/'] + tail) == Slashed(head) + ['/'] + Slashed(tail);
    SplitConcat(Slashed(head), Slashed(tail), '/');
  }

  lemma WholePiece(seg: string)
    requires '/' !in seg && '\\' !in seg
    ensures Pieces(seg) == [seg]
  {
    assert Slashed(seg) == seg;
    assert SplitOnce(seg, '/').None?;
  }

  // A piece between slashes that holds no backslash is a piece between separators.
  lemma {:induction false} PieceOf(s: string, seg: string)
    requires seg in Split(s, '/') && '\\' !in seg
    ensures seg in Pieces(s)
    decreases |s|
  {
    match SplitOnce(s, '/') {
      case None =>
        assert Slashed(s) == s;
      case Some((head, tail)) =>
        PiecesStep(head, tail);
        if seg in Split(tail, '/') {
          PieceOf(tail, seg);
        } else {
          assert seg == head;
          WholePiece(head);
        }
    }
  }

  // The last piece made one character longer.
  function Lengthen(p: seq<string>, x: char): seq<string>
    requires p != []
  {
    p[..|p| - 1] + [p[|p| - 1] + [x]]
  }

  lemma LengthenTail(head: string, p: seq<string>, x: char)
    requires p != []
    ensures Lengthen([head] + p, x) == [head] + Lengthen(p, x)
  {
    assert ([head] + p)[..|p|] == [head] + p[..|p| - 1];
  }

  lemma SplitStep(head: string, tail: string)
    requires '/' !in head
    ensures Split(head + ['/'] + tail, '/') == [head] + Split(tail, '/')
  {
    SplitOnceAt(head, tail, '/');
  }

  // A further character that is no slash only lengthens the last piece.
  lemma {:induction false} SplitMore(s: string, x: char)
    requires x != '/'
    ensures Split(s + [x], '/') == Lengthen(Split(s, '/'), x)
    decreases |s|
  {
    match SplitOnce(s, '/') {
      case None =>
        assert SplitOnce(s + [x], '/').None?;
      case Some((head, tail)) =>
        assert s + [x] == head + ['/'] + (tail + [x]);
        SplitStep(head, tail);
        SplitStep(head, tail + [x]);
        SplitMore(tail, x);
        LengthenTail(head, Split(tail, '/'), x);
    }
  }

  lemma {:induction false} GoodSegments(segs: seq<string>)
    requires forall i :: 0 <= i < |segs| ==> segs[i] != "" && !IsDot(segs[i])
    ensures FirstBad(segs) == None
  {
    if segs != [] {
      GoodSegments(segs[1..]);
    }
  }

  // What the validator checked, on the pieces between slashes.
  lemma TrimmedIsPlain(rest: string)
    requires CheckHomeRest(rest).None?
    requires !AnyDot(Pieces(rest))
    ensures AllPlain(Split(StripLast(rest, IsSeparator), '/'))
  {
    var trimmed := StripLast(rest, IsSeparator);
    forall seg | seg in Split(trimmed, '/') ensures IsPlainSegment(seg) {
      if '\\' !in seg {
        PieceOf(trimmed, seg);
        TrimmedPiece(rest, seg);
        NoneSuch(Pieces(trimmed), Pieces(rest), seg);
      }
    }
  }

  lemma NoneSuch(some: seq<string>, all: seq<string>, seg: string)
    requires seg in some && seg in all && !AnyEmpty(some) && !AnyDot(all)
    ensures seg != "" && !IsDot(seg)
  {
  }

  // The expander drops a trailing slash only; a trailing backslash stays in the last segment.
  lemma RestIsPlain(rest: string)
    requires rest != "" && CheckHomeRest(rest).None?
    requires !AnyDot(Pieces(rest))
    ensures StripLast(rest, IsSlash) != ""
    ensures AllPlain(Split(StripLast(rest, IsSlash), '/'))
  {
    TrimmedIsPlain(rest);
    PlainNonempty(StripLast(rest, IsSeparator));
    KeptPlain(rest);
  }

  lemma PlainNonempty(s: string)
    requires AllPlain(Split(s, '/'))
    ensures s != ""
  {
    assert Split("", '/')[0] == "";
  }

  lemma KeptPlain(rest: string)
    requires StripLast(rest, IsSeparator) != "" && AllPlain(Split(StripLast(rest, IsSeparator), '/'))
    ensures StripLast(rest, IsSlash) != "" && AllPlain(Split(StripLast(rest, IsSlash), '/'))
  {
    var kept, trimmed := StripLast(rest, IsSlash), StripLast(rest, IsSeparator);
    if kept != trimmed {
      assert kept == rest && rest == trimmed + ['\\'];
      BackslashEnd(trimmed);
    }
  }

  lemma BackslashEnd(trimmed: string)
    requires AllPlain(Split(trimmed, '/'))
    ensures AllPlain(Split(trimmed + ['\\'], '/'))
  {
    SplitMore(trimmed, '\\');
    LengthenPlain(Split(trimmed, '/'), '\\');
  }

  lemma LengthenPlain(segs: seq<string>, x: char)
    requires segs != [] && AllPlain(segs) && x != '/' && x != '.'
    ensures AllPlain(Lengthen(segs, x))
  {
    var last := segs[|segs| - 1] + [x];
    assert last[|last| - 1] == x;
    assert IsPlainSegment(last);
  }

  // Pieces of a target without its trailing separator are pieces of the target.
  lemma TrimmedPiece(rest: string, seg: string)
    requires seg in Pieces(StripLast(rest, IsSeparator))
    ensures seg in Pieces(rest)
  {
    var trimmed := StripLast(rest, IsSeparator);
    if trimmed != rest {
      assert Slashed(rest) == Slashed(trimmed) + "/" + "";
      SplitConcat(Slashed(trimmed), "", '/');
    }
  }

  // The segments the expander pushes.
  function Segments(rest: string): seq<string> {
    Split(StripLast(rest, IsSlash), '/')
  }

  // A target that is `~/` and a rest.
  predicate HomeForm(target: string, rest: string) {
    |target| >= 2 && target[0] == '~' && target[1] == '/' && target[2..] == rest
  }

  lemma HomeFormed(target: string)
    requires StartsWith(target, "~/")
    ensures HomeForm(target, target[2..]) && target == "~/" + target[2..]
  {
  }

  lemma ValidatesHome(target: string, rest: string)
    requires HomeForm(target, rest) && rest != ""
    ensures ValidatePath(target).None? <==> CheckHomeRest(rest).None? && !AnyDot(Pieces(rest))
  {
    assert target[..2] == "~/";
  }

  lemma ExpandsHome(home: string, target: string, rest: string)
    requires HomeForm(target, rest) && StripLast(rest, IsSlash) != ""
    ensures Expand(Some(home), target) ==
      if FirstBad(Segments(rest)).Some? then Err(FirstBad(Segments(rest)).value) else Ok(PushAll(home, Segments(rest)))
  {
    assert target[..1] == "~";
  }

  // A `~` target that expands to the home directory followed by these segments, the ones
  // between its slashes.
  predicate ExpandsTo(home: string, target: string, segs: seq<string>) {
    && AllPlain(segs) && Expand(Some(home), target) == Ok(PushAll(home, segs))
    && (segs == [] <==> target == "~" || target == "~/")
    && (segs != [] ==> target == "~/" + Join(segs, '/') || target == "~/" + Join(segs, '/') + "/")
  }

  lemma RestSpells(rest: string)
    requires rest != ""
    ensures rest == Join(Segments(rest), '/') || rest == Join(Segments(rest), '/') + "/"
  {
    var kept := StripLast(rest, IsSlash);
    assert rest == kept || rest == kept + "/";
  }

  lemma RestExpansion(home: string, target: string, rest: string)
    requires HomeForm(target, rest) && rest != "" && CheckHomeRest(rest).None? && !AnyDot(Pieces(rest))
    ensures AllPlain(Segments(rest)) && Expand(Some(home), target) == Ok(PushAll(home, Segments(rest)))
  {
    RestIsPlain(rest);
    GoodSegments(Segments(rest));
    ExpandsHome(home, target, rest);
  }

  lemma HomeRest(home: string, target: string, rest: string)
    requires HomeForm(target, rest) && rest != "" && CheckHomeRest(rest).None? && !AnyDot(Pieces(rest))
    requires target == "~/" + rest
    ensures ExpandsTo(home, target, Segments(rest))
  {
    RestExpansion(home, target, rest);
    RestSpelled(target, rest);
  }

  lemma RestSpelled(target: string, rest: string)
    requires rest != "" && target == "~/" + rest
    ensures target != "~" && target != "~/" && Segments(rest) != []
    ensures target == "~/" + Join(Segments(rest), '/') || target == "~/" + Join(Segments(rest), '/') + "/"
  {
    RestSpells(rest);
    assert |target| > 2;
    Assoc("~/", Join(Segments(rest), '/'), "/");
  }

  lemma HomeItself(home: string, target: string)
    requires target == "~" || target == "~/"
    ensures ExpandsTo(home, target, [])
  {
  }

  // Only `~` itself and what begins with `~/` is accepted.
  lemma AcceptedHome(target: string)
    requires StartsWith(target, "~") && ValidatePath(target).None?
    ensures target == "~" || StartsWith(target, "~/")
  {
    assert target[0] == '~';
  }

  // Every `~` target the validator accepts expands to the home directory followed by
  // zero or more plain segments.
  lemma HomeTargetsExpand(home: string, target: string)
    requires StartsWith(target, "~") && ValidatePath(target).None?
    ensures exists segs :: ExpandsTo(home, target, segs)
  {
    AcceptedHome(target);
    if target == "~" || target == "~/" {
      HomeItself(home, target);
    } else {
      var rest := target[2..];
      HomeFormed(target);
      ValidatesHome(target, rest);
      HomeRest(home, target, rest);
    }
  }

  // Plain segments only lengthen the path: the home directory stays in front.
  lemma {:induction false} StaysUnderHome(home: string, segs: seq<string>)
    requires AllPlain(segs)
    ensures home <= PushAll(home, segs)
    ensures segs != [] && home != "" && home[|home| - 1] != '/' ==> PushAll(home, segs) == home + "/" + Join(segs, '/')
  {
    if segs != [] {
      var front, last := segs[..|segs| - 1], segs[|segs| - 1];
      StaysUnderHome(home, front);
      if front != [] {
        PushJoined(home, front, last);
        assert segs == front + [last];
      } else {
        assert segs == [last];
      }
    }
  }

  lemma PushJoined(home: string, front: seq<string>, last: string)
    requires AllPlain(front) && front != []
    ensures Push(home + "/" + Join(front, '/'), last) == home + "/" + Join(front + [last], '/')
  {
    var path := home + "/" + Join(front, '/');
    JoinPlainEnd(front);
    assert path[|path| - 1] != '/';
    JoinLast(front + [last]);
    assert (front + [last])[..|front|] == front;
    assert path + "/" + last == home + "/" + (Join(front, '/') + "/" + last);
  }

  lemma {:induction false} JoinLast(segs: seq<string>)
    requires |segs| >= 2
    ensures Join(segs, '/') == Join(segs[..|segs| - 1], '/') + "/" + segs[|segs| - 1]
  {
    if |segs| > 2 {
      JoinLast(segs[1..]);
      assert segs[1..][..|segs| - 2] == segs[..|segs| - 1][1..];
    }
  }

  lemma {:induction false} JoinPlainEnd(segs: seq<string>)
    requires AllPlain(segs) && segs != []
    ensures var j := Join(segs, '/'); j != "" && j[|j| - 1] != '/'
  {
    if |segs| == 1 {
      assert segs[0][|segs[0]| - 1] in segs[0];
    } else {
      JoinPlainEnd(segs[1..]);
    }
  }

  // Any other accepted target is left as it is; it is absolute, no network path, and has no
  // dot segment whichever separator its segments are written with.
  lemma OtherTargetsKept(home: Option<string>, target: string)
    requires !StartsWith(target, "~") && ValidatePath(target).None?
    ensures Expand(home, target) == Ok(target) && !IsNetworkPath(target) && Body(target).Some?
    ensures !AnyDot(Pieces(Body(target).value))
  {
  }

  // What follows the root of an absolute target, whether it is written for Unix or for Windows.
  predicate AbsoluteWith(target: string, rest: string) {
    || target == "/" + rest
    || (|target| >= 3 && IsLetter(target[0]) && target[1] == ':' && (target[2] == '/' || target[2] == '\\')
        && target[3..] == rest)
  }

  lemma DotsIn(segs: seq<string>)
    ensures AnyDot(segs) <==> "." in segs || ".." in segs
  {
    if "." in segs || ".." in segs {
      var i :| 0 <= i < |segs| && (segs[i] == "." || segs[i] == "..");
      assert IsDot(segs[i]);
    }
  }

  predicate OnTwoSlashes(target: string) {
    |target| >= 2 && target[0] in {'/', '\\'} && target[1] in {'/', '\\'}
  }

  // Exactly these are accepted: absolute ones that are no network path and have no dot segment.
  lemma OtherTargetsExactly(target: string)
    requires !StartsWith(target, "~")
    ensures ValidatePath(target).None? <==>
      && !OnTwoSlashes(target)
      && exists rest :: AbsoluteWith(target, rest) && "." !in Pieces(rest) && ".." !in Pieces(rest)
  {
    forall rest ensures AnyDot(Pieces(rest)) <==> "." in Pieces(rest) || ".." in Pieces(rest) {
      DotsIn(Pieces(rest));
    }
    if Body(target).Some? {
      assert StartsWith(target, "/") ==> target == "/" + target[1..];
      assert AbsoluteWith(target, Body(target).value);
    }
    forall rest | AbsoluteWith(target, rest) ensures Body(target) == Some(rest) {
      if target == "/" + rest {
        assert target[..1] == "/" && target[1..] == rest;
      }
    }
  }

  // ----- the other direction -----

  // Some segment of a `~/` target begins like a Windows drive.
  predicate HasDrive(target: string) {
    StartsWith(target, "~/") && AnyDrive(Segments(target[2..]))
  }

  lemma {:induction false} FirstBadMeans(segs: seq<string>)
    ensures FirstBad(segs).None? <==> !AnyEmpty(segs) && !AnyDot(segs)
  {
    if segs != [] {
      FirstBadMeans(segs[1..]);
      AnyHead(segs);
    }
  }

  lemma AnyHead(segs: seq<string>)
    requires segs != []
    ensures AnyEmpty(segs) <==> segs[0] == "" || AnyEmpty(segs[1..])
    ensures AnyDot(segs) <==> IsDot(segs[0]) || AnyDot(segs[1..])
  {
    assert forall i :: 0 < i < |segs| ==> segs[i] == segs[1..][i - 1];
  }

  lemma PlainSlashed(s: string)
    requires '\\' !in s
    ensures Slashed(s) == s && StripLast(s, IsSeparator) == StripLast(s, IsSlash)
  {
    assert forall i :: 0 <= i < |s| ==> s[i] in s;
  }

  lemma AnyDotMore(segs: seq<string>)
    ensures AnyDot(segs + [""]) <==> AnyDot(segs)
  {
    var more := segs + [""];
    assert forall i :: 0 <= i < |segs| ==> more[i] == segs[i];
  }

  // A trailing slash adds no dot segment.
  lemma DotsInRest(rest: string)
    ensures AnyDot(Split(rest, '/')) <==> AnyDot(Segments(rest))
  {
    var kept := StripLast(rest, IsSlash);
    if kept != rest {
      assert rest == kept + ['/'];
      SlashEnd(kept);
      AnyDotMore(Split(kept, '/'));
    }
  }

  lemma SlashEnd(s: string)
    ensures Split(s + ['/'], '/') == Split(s, '/') + [""]
  {
    assert s + ['/'] == s + ['/'] + "";
    SplitConcat(s, "", '/');
    assert Split("", '/') == [""];
  }

  // The validator's checks, where there is one kind of separator.
  lemma RestChecks(rest: string)
    requires '\\' !in rest
    ensures CheckHomeRest(rest).None? <==> !AnyEmpty(Segments(rest)) && !AnyDrive(Segments(rest))
    ensures AnyDot(Pieces(rest)) <==> AnyDot(Segments(rest))
  {
    var kept := StripLast(rest, IsSlash);
    PlainSlashed(rest);
    assert '\\' !in kept;
    PlainSlashed(kept);
    DotsInRest(rest);
  }

  lemma RestExpands(home: string, target: string, rest: string)
    requires HomeForm(target, rest) && StripLast(rest, IsSlash) != ""
    ensures Expand(Some(home), target).Ok? <==> !AnyEmpty(Segments(rest)) && !AnyDot(Segments(rest))
  {
    ExpandsHome(home, target, rest);
    FirstBadMeans(Segments(rest));
  }

  lemma RestAgrees(home: string, target: string, rest: string)
    requires HomeForm(target, rest) && '\\' !in rest && rest != "" && rest != "/"
    ensures ValidatePath(target).None? <==> Expand(Some(home), target).Ok? && !AnyDrive(Segments(rest))
  {
    ValidatesHome(target, rest);
    RestChecks(rest);
    RestExpands(home, target, rest);
  }

  // On targets without a backslash the validator accepts a `~` target exactly when it expands
  // and no segment begins like a drive, but for `~//`, which it refuses though it would expand
  // to the home directory.
  lemma SlashTargetsAgree(home: string, target: string)
    requires StartsWith(target, "~") && '\\' !in target
    ensures ValidatePath(target).None? <==> Expand(Some(home), target).Ok? && !HasDrive(target) && target != "~//"
  {
    if StartsWith(target, "~/") {
      var rest := target[2..];
      HomeFormed(target);
      if rest != "" && rest != "/" {
        RestAgrees(home, target, rest);
      } else {
        ShortTargets(home, rest);
      }
    } else {
      assert target[0] == '~';
    }
  }

  lemma ShortTargets(home: string, rest: string)
    requires rest == "" || rest == "/"
    ensures ValidatePath("~/" + rest).None? <==> rest == ""
    ensures Expand(Some(home), "~/" + rest).Ok? && !HasDrive("~/" + rest)
  {
    assert ("~/" + rest)[2..] == rest;
    StripShort(rest);
    if rest == "" {
      assert Slashed("") == "";
    } else {
      ValidatesHome("~/" + rest, rest);
    }
  }

  lemma StripShort(rest: string)
    requires rest == "" || rest == "/"
    ensures StripLast(rest, IsSeparator) == "" && StripLast(rest, IsSlash) == ""
    ensures Split("", '/') == [""] && Pieces("") == [""]
  {
    assert Slashed("") == "";
  }

  // The validator takes a backslash for a slash, after `~/`.
  lemma SlashedRest(rest: string)
    ensures CheckHomeRest(Slashed(rest)) == CheckHomeRest(rest) && Pieces(Slashed(rest)) == Pieces(rest)
  {
    var trimmed := StripLast(rest, IsSeparator);
    assert Slashed(Slashed(rest)) == Slashed(rest);
    assert StripLast(Slashed(rest), IsSeparator) == Slashed(trimmed);
    assert Slashed(Slashed(trimmed)) == Slashed(trimmed);
  }

  lemma SlashedForm(target: string, rest: string)
    requires HomeForm(target, rest)
    ensures HomeForm(Slashed(target), Slashed(rest)) && StartsWith(Slashed(target), "~/")
    ensures '\\' !in Slashed(target)
  {
    assert Slashed(target)[2..] == Slashed(rest);
    assert Slashed(target)[..2] == "~/";
  }

  lemma SlashedTarget(target: string, rest: string)
    requires HomeForm(target, rest)
    ensures ValidatePath(Slashed(target)).None? <==> ValidatePath(target).None?
  {
    SlashedForm(target, rest);
    if rest != "" {
      SlashedRest(rest);
      ValidatesHome(target, rest);
      ValidatesHome(Slashed(target), Slashed(rest));
    } else {
      assert Slashed(target) == target;
    }
  }

  // The validator accepts a `~` target exactly when it is `~` or begins with `~/` and, its
  // backslashes made slashes, it expands and no segment begins like a drive, but for `~//`.
  lemma HomeTargetsAgree(home: string, target: string)
    requires StartsWith(target, "~")
    ensures ValidatePath(target).None? <==>
      && (target == "~" || StartsWith(target, "~/"))
      && Expand(Some(home), Slashed(target)).Ok? && !HasDrive(Slashed(target)) && Slashed(target) != "~//"
  {
    if StartsWith(target, "~/") {
      HomeFormed(target);
      SlashedForm(target, target[2..]);
      SlashedTarget(target, target[2..]);
      SlashTargetsAgree(home, Slashed(target));
    } else if target == "~" {
      assert Slashed(target) == target;
    } else if ValidatePath(target).None? {
      AcceptedHome(target);
    }
  }
}
