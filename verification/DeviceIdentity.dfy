/** How a volume id is resolved to a multipath device: polling multipathd, collecting the devices
    whose uuid contains the key, and asking the only one for its own WWN. */
module DeviceIdentity {
  import opened Text
  import opened NodeMachine

  const DEV_PATH := "/dev/"
  const MPATHD_SEPARATOR: char := ','
  const WAIT_FOR_MPATH_RETRIES: nat := 5

  datatype Error =
    | CommandFailed | DeviceNotFound | MultipleDevices | ReloadFailed | InquiryFailed | WrongDevice

  /** An empty path stands for an answer without a device. */
  datatype Lookup = Found(path: Path) | Refused(error: Error)

  /** One answer of multipathd: a failed command, or one "name,uuid" line for each device. */
  datatype Poll = Broken | Output(lines: seq<string>)

  /** What the host shows during one look: the successive polls, and the WWN each device reports. */
  datatype View = View(polls: seq<Poll>, inquiry: map<Path, string>)

  predicate Contains(s: string, part: string) {
    part <= s || (s != "" && Contains(s[1..], part))
  }

  predicate Mentions(lines: seq<string>, key: string) {
    Contains(Join(lines, "\n"), key)
  }

  /** The lines have the two columns that the command asks for, and polling can go on. */
  ghost predicate Formatted(view: View) {
    && |view.polls| >= WAIT_FOR_MPATH_RETRIES
    && forall p, line | p in view.polls && p.Output? && line in p.lines :: MPATHD_SEPARATOR in line
  }

  // ---------- what is looked for ----------

  /** The first poll that fails or mentions the key, among the tries left; otherwise no lines. */
  function Waited(polls: seq<Poll>, key: string): Poll {
    if polls == [] then Output([])
    else if polls[0].Broken? || Mentions(polls[0].lines, key) then polls[0]
    else Waited(polls[1..], key)
  }

  predicate Matches(line: string, key: string)
    requires MPATHD_SEPARATOR in line
  {
    TwoColumns(line);
    Contains(Split(line, MPATHD_SEPARATOR)[1], key)
  }

  function PathOf(line: string): Path {
    DEV_PATH + Strip(Split(line, MPATHD_SEPARATOR)[0])
  }

  lemma {:induction false} TwoColumns(line: string)
    requires MPATHD_SEPARATOR in line
    ensures |Split(line, MPATHD_SEPARATOR)| >= 2
  {
    if line[0] != MPATHD_SEPARATOR {
      TwoColumns(line[1..]);
    }
  }

  function Candidates(lines: seq<string>, key: string): set<Path>
    requires forall line | line in lines :: MPATHD_SEPARATOR in line
  {
    set line | line in lines && Matches(line, key) :: PathOf(line)
  }

  lemma CandidatesGrow(lines: seq<string>, line: string, key: string)
    requires (forall l | l in lines :: MPATHD_SEPARATOR in l) && MPATHD_SEPARATOR in line
    ensures Candidates(lines + [line], key)
         == Candidates(lines, key) + if Matches(line, key) then {PathOf(line)} else {}
  {
    var grown := lines + [line];
    assert forall l :: l in grown <==> l in lines || l == line;
  }

  /** The awaited lines are lines of some poll. */
  lemma {:induction false} WaitedIsPolled(polls: seq<Poll>, key: string)
    ensures Waited(polls, key) in polls || Waited(polls, key) == Output([])
  {
    if polls != [] {
      WaitedIsPolled(polls[1..], key);
    }
  }

  /** What a look at the host waits for, in at most five polls. */
  ghost function Awaited(view: View, key: string): (poll: Poll)
    requires Formatted(view)
    ensures poll.Output? ==> forall line | line in poll.lines :: MPATHD_SEPARATOR in line
  {
    var polls := view.polls[..WAIT_FOR_MPATH_RETRIES];
    WaitedIsPolled(polls, key);
    assert forall p | p in polls :: p in view.polls;
    Waited(polls, key)
  }

  /** Exactly the device that is the only candidate and reports the key as its WWN. */
  ghost predicate Identifies(view: View, key: string, path: Path)
    requires Formatted(view)
  {
    && Awaited(view, key).Output?
    && Candidates(Awaited(view, key).lines, key) == {path}
    && path in view.inquiry && Lower(view.inquiry[path]) == key
  }

  /** What the first look accepts: it drops the error of a failed inquiry and compares the empty
      text that comes with it. */
  ghost predicate Accepts(view: View, key: string, path: Path)
    requires Formatted(view)
  {
    && Awaited(view, key).Output?
    && Candidates(Awaited(view, key).lines, key) == {path}
    && Lower(if path in view.inquiry then view.inquiry[path] else "") == key
  }

  // ---------- the operations ----------

  method WaitForDmToExist(polls: seq<Poll>, key: string) returns (poll: Poll)
    requires |polls| >= WAIT_FOR_MPATH_RETRIES
    ensures poll == Waited(polls[..WAIT_FOR_MPATH_RETRIES], key)
  {
    ghost var tries := polls[..WAIT_FOR_MPATH_RETRIES];
    for i := 0 to WAIT_FOR_MPATH_RETRIES
      invariant Waited(tries[i..], key) == Waited(tries, key)
    {
      assert tries[i..][0] == polls[i] && tries[i..][1..] == tries[i + 1..];
      if polls[i].Broken? {
        return Broken;
      }
      if Mentions(polls[i].lines, key) {
        return polls[i];
      }
    }
    return Output([]);
  }

  method GetDmsPath(view: View, key: string) returns (lookup: Lookup)
    requires Formatted(view)
    ensures var waited := Awaited(view, key);
            lookup == if waited.Broken? then Refused(CommandFailed)
                      else if waited.lines == [] then Refused(DeviceNotFound)
                      else if |Candidates(waited.lines, key)| > 1 then Refused(MultipleDevices)
                      else Found(OnlyOrNone(Candidates(waited.lines, key)))
  {
    var poll := WaitForDmToExist(view.polls, key);
    assert poll == Awaited(view, key);
    if poll.Broken? {
      return Refused(CommandFailed);
    }
    if poll.lines == [] {
      return Refused(DeviceNotFound);
    }
    var dms: set<Path> := {};
    for k := 0 to |poll.lines|
      invariant forall line | line in poll.lines :: MPATHD_SEPARATOR in line
      invariant dms == Candidates(poll.lines[..k], key)
    {
      var line := poll.lines[k];
      assert line in poll.lines;
      assert poll.lines[..k + 1] == poll.lines[..k] + [line];
      CandidatesGrow(poll.lines[..k], line, key);
      TwoColumns(line);
      var lineParts := Split(line, MPATHD_SEPARATOR);
      var dm, uuid := lineParts[0], lineParts[1];
      if Contains(uuid, key) {
        dms := dms + {DEV_PATH + Strip(dm)};
      }
    }
    assert poll.lines[..|poll.lines|] == poll.lines;
    if |dms| > 1 {
      return Refused(MultipleDevices);
    }
    return Found(OnlyOrNone(dms));
  }

  /** The single element of a set, or the empty path. */
  function OnlyOrNone(paths: set<Path>): (path: Path)
    requires |paths| <= 1
    ensures paths == if paths == {} then {} else {path}
    ensures paths == {} ==> path == ""
  {
    if paths == {} then ""
    else
      assert forall p, q | p in paths && q in paths :: p == q by {
        forall p, q | p in paths && q in paths
          ensures p == q
        {
          assert |paths - {p}| == 0;
        }
      }
      var path :| path in paths;
      path
  }

  /** Why the look after the reload refuses. */
  ghost predicate RefusedBy(view: View, key: string, error: Error)
    requires Formatted(view)
  {
    var waited := Awaited(view, key);
    error ==
    if waited.Broken? then CommandFailed
    else if waited.lines == [] then DeviceNotFound
    else if |Candidates(waited.lines, key)| > 1 then MultipleDevices
    else if Candidates(waited.lines, key) <= {""} then DeviceNotFound
    else if Candidates(waited.lines, key) * view.inquiry.Keys == {} then InquiryFailed
    else WrongDevice
  }

  /** The look after the multipath tables are reloaded, which takes every error for what it is. */
  method LookAgain(view: View, key: string) returns (lookup: Lookup)
    requires Formatted(view)
    ensures lookup.Found? ==> Identifies(view, key, lookup.path)
    ensures lookup.Refused? ==> RefusedBy(view, key, lookup.error) && forall path :: !Identifies(view, key, path)
  {
    lookup := GetDmsPath(view, key);
    if lookup.Refused? {
      return;
    }
    if lookup.path == "" {
      return Refused(DeviceNotFound);
    }
    assert Candidates(Awaited(view, key).lines, key) == {lookup.path};
    if lookup.path !in view.inquiry {
      return Refused(InquiryFailed);
    }
    if Lower(view.inquiry[lookup.path]) != key {
      return Refused(WrongDevice);
    }
  }

  /** One look before the multipath tables are reloaded, ignoring any error, and one after. */
  method GetMpathDevice(volume: VolumeId, before: View, reloads: bool, after: View) returns (lookup: Lookup)
    requires Formatted(before) && Formatted(after)
    ensures lookup.Found? ==>
              Accepts(before, DeviceOf(volume), lookup.path) || Identifies(after, DeviceOf(volume), lookup.path)
    ensures (exists path :: Accepts(before, DeviceOf(volume), path)) ==>
              lookup.Found? && Accepts(before, DeviceOf(volume), lookup.path)
    ensures lookup.Found? <==>
              || (exists path :: Accepts(before, DeviceOf(volume), path))
              || (reloads && exists path :: Identifies(after, DeviceOf(volume), path))
    ensures lookup.Refused? ==>
              if !reloads then lookup.error == ReloadFailed else RefusedBy(after, DeviceOf(volume), lookup.error)
    ensures lookup.Found? && DeviceOf(volume) != "" ==>
              Identifies(before, DeviceOf(volume), lookup.path) || Identifies(after, DeviceOf(volume), lookup.path)
  {
    var parts := Split(volume, ':');
    var key := Lower(parts[|parts| - 1]);
    var first := GetDmsPath(before, key);
    if first.Found? && first.path != "" {
      var wwn := if first.path in before.inquiry then before.inquiry[first.path] else "";
      if Lower(wwn) == key {
        if key != "" {
          NonEmptyKeyWasReported(before, key, first.path);
        }
        return first;
      }
    }
    if !reloads {
      return Refused(ReloadFailed);
    }
    lookup := LookAgain(after, key);
  }

  /** What the first look accepts has reported the key itself, whatever the host shows, exactly when
      the key is not empty. */
  lemma AcceptsOnlyWhatIdentifies(key: string)
    ensures (forall view, path | Formatted(view) && Accepts(view, key, path) :: Identifies(view, key, path))
            <==> key != ""
  {
    if key != "" {
      forall view, path | Formatted(view) && Accepts(view, key, path)
        ensures Identifies(view, key, path)
      {
        NonEmptyKeyWasReported(view, key, path);
      }
    } else {
      var line := [MPATHD_SEPARATOR];
      var view := View(seq(WAIT_FOR_MPATH_RETRIES, _ => Output([line])), map[]);
      EmptyKeyAcceptsAnything(line, view);
    }
  }

  lemma NonEmptyKeyWasReported(view: View, key: string, path: Path)
    requires key != "" && Formatted(view) && Accepts(view, key, path)
    ensures Identifies(view, key, path)
  {
    assert Lower("") == "";
  }

  /** An id such as "SVC:" has the empty key. The only device of a host is taken for its own when the
      inquiry of that device fails. */
  lemma EmptyKeyAcceptsAnything(line: string, view: View)
    requires MPATHD_SEPARATOR in line && view.inquiry == map[]
    requires |view.polls| >= WAIT_FOR_MPATH_RETRIES && forall p | p in view.polls :: p == Output([line])
    ensures Formatted(view) && Accepts(view, "", PathOf(line)) && !Identifies(view, "", PathOf(line))
  {
    var polls := view.polls[..WAIT_FOR_MPATH_RETRIES];
    assert polls[0] == view.polls[0] && view.polls[0] in view.polls;
    assert Mentions([line], "");
    assert Awaited(view, "") == Output([line]);
    assert Matches(line, "");
    CandidatesGrow([], line, "");
    assert [] + [line] == [line];
    assert Candidates([], "") == {};
    assert Lower("") == "";
  }

  lemma NoLastPartNoKey(arrayType: string)
    requires ':' !in arrayType
    ensures DeviceOf(arrayType + ":") == ""
  {
    SplitPeels(arrayType, "", ':');
    assert arrayType + [':'] + "" == arrayType + ":";
  }

  // ---------- what is read from the host ----------

  ghost predicate OccursAt(s: string, part: string, i: nat) {
    i + |part| <= |s| && s[i..i + |part|] == part
  }

  /** The text holds the part somewhere. */
  lemma {:induction false} ContainsExactly(s: string, part: string)
    ensures Contains(s, part) <==> exists i :: OccursAt(s, part, i)
  {
    if part <= s {
      assert OccursAt(s, part, 0);
    } else if s != "" {
      ContainsExactly(s[1..], part);
      if i: nat :| OccursAt(s, part, i) {
        assert i > 0;
        assert s[1..][i - 1..i - 1 + |part|] == s[i..i + |part|];
        assert OccursAt(s[1..], part, i - 1);
      }
      if i: nat :| OccursAt(s[1..], part, i) {
        assert s[1..][i..i + |part|] == s[i + 1..i + 1 + |part|];
        assert OccursAt(s, part, i + 1);
      }
    }
  }

  /** The wait ends with the first poll that fails or mentions the key; without one it ends empty. */
  lemma {:induction false} WaitedIsFirst(polls: seq<Poll>, key: string)
    ensures
      || (exists k :: 0 <= k < |polls| && Waited(polls, key) == polls[k] && Ends(polls[k], key)
                      && forall j | 0 <= j < k :: !Ends(polls[j], key))
      || (Waited(polls, key) == Output([]) && forall j | 0 <= j < |polls| :: !Ends(polls[j], key))
  {
    if polls != [] && !Ends(polls[0], key) {
      WaitedIsFirst(polls[1..], key);
      assert forall j | 0 < j < |polls| :: polls[j] == polls[1..][j - 1];
      if k :| 0 <= k < |polls| - 1 && Waited(polls[1..], key) == polls[1..][k] && Ends(polls[1..][k], key)
              && forall j | 0 <= j < k :: !Ends(polls[1..][j], key) {
        assert Waited(polls, key) == polls[k + 1] && Ends(polls[k + 1], key);
      }
    }
  }

  /** A poll that failed, or some output of which a stretch is the key. */
  ghost predicate Ends(poll: Poll, key: string) {
    poll.Broken? || Mentions(poll.lines, key)
  }

  /** A line "name,uuid" stands for the device of that name, and matches by its uuid alone. */
  lemma LineIsNameAndUuid(name: string, uuid: string, key: string)
    requires MPATHD_SEPARATOR !in name && MPATHD_SEPARATOR !in uuid
    ensures
      var line := name + [MPATHD_SEPARATOR] + uuid;
      && MPATHD_SEPARATOR in line
      && (Matches(line, key) <==> exists i :: OccursAt(uuid, key, i))
      && PathOf(line) == "/dev/" + Strip(name)
  {
    var line := name + [MPATHD_SEPARATOR] + uuid;
    assert line[|name|] == MPATHD_SEPARATOR;
    SplitPeels(name, uuid, MPATHD_SEPARATOR);
    SplitFree(uuid, MPATHD_SEPARATOR);
    ContainsExactly(uuid, key);
  }

  /** The key of a volume id is what follows its last colon, in lower case. */
  lemma {:induction false} KeyIsLastPart(prefix: string, last: string)
    requires ':' !in last
    ensures DeviceOf(last) == Lower(last) && DeviceOf(prefix + ":" + last) == Lower(last)
    decreases |prefix|
  {
    SplitFree(last, ':');
    if ':' !in prefix {
      KeyAfterColon(prefix, last);
    } else {
      var head, rest := AtFirstColon(prefix);
      KeyIsLastPart(rest, last);
      KeyAfterColon(head, rest + ":" + last);
      assert head + ":" + (rest + ":" + last) == prefix + ":" + last;
    }
  }

  /** The first part of an id does not matter. */
  lemma KeyAfterColon(head: string, rest: string)
    requires ':' !in head
    ensures DeviceOf(head + ":" + rest) == DeviceOf(rest)
  {
    PartsAfterColon(head, rest, head + ":" + rest);
    KeyOfParts(head + ":" + rest, [head] + Split(rest, ':'));
    KeyOfParts(rest, Split(rest, ':'));
  }

  lemma PartsAfterColon(head: string, rest: string, id: string)
    requires ':' !in head && id == head + [':'] + rest
    ensures Split(id, ':') == [head] + Split(rest, ':')
  {
    SplitPeels(head, rest, ':');
  }

  lemma KeyOfParts(id: string, parts: seq<string>)
    requires Split(id, ':') == parts
    ensures DeviceOf(id) == Lower(parts[|parts| - 1])
  {
  }

  lemma {:induction false} AtFirstColon(s: string) returns (head: string, rest: string)
    requires ':' in s
    ensures ':' !in head && s == head + ":" + rest
  {
    if s[0] == ':' {
      head, rest := "", s[1..];
    } else {
      head, rest := AtFirstColon(s[1..]);
      head := [s[0]] + head;
    }
  }

  /** Lower case letter by letter. */
  lemma LowerByLetter(s: string, i: nat)
    requires i < |s|
    ensures Lower(s)[i] as int == if 'A' <= s[i] <= 'Z' then s[i] as int + 32 else s[i] as int
  {
  }

  // ---------- identity ----------

  /** As a corollary of what Identifies says, a device serves one key only: whatever two volume ids
      resolve to, from whatever polls, the devices are the same exactly when the last parts of the ids
      agree up to case, as long as the devices report the same WWNs throughout and the two looks saw
      the same table. */
  lemma DevicesAgreeExactlyWhenKeysDo(view: View, other: View, a: VolumeId, b: VolumeId, p: Path, q: Path)
    requires Formatted(view) && Formatted(other) && view.inquiry == other.inquiry
    requires Identifies(view, DeviceOf(a), p) && Identifies(other, DeviceOf(b), q)
    ensures p == q ==> DeviceOf(a) == DeviceOf(b)
    ensures view.polls == other.polls && DeviceOf(a) == DeviceOf(b) ==> p == q
  {
    if view.polls == other.polls && DeviceOf(a) == DeviceOf(b) {
      assert p in {q};
    }
  }
}
