/** Which deficient answers of `docker inspect` the guard tolerates, said on Docker's output:
    the lines of the error stream, the records, and the registry. */
module GuardRaces {
  import opened GuardProtocol
  import opened Sequences
  import opened Strings
  import opened Wrappers

  // ----- Lines that name a container -----

  /** The characters of "error: no such object: ", each letter in either case. */
  ghost predicate SpellsPrefix(p: string) {
    var prefix := "error: no such object: ";
    && |p| == |prefix|
    && forall i | 0 <= i < |p| ::
         p[i] == prefix[i] || ('a' <= prefix[i] <= 'z' && p[i] as int == prefix[i] as int - 'a' as int + 'A' as int)
  }

  ghost predicate MadeOf(line: string, front: string, prefix: string, gap: string, id: string, back: string) {
    && line == front + prefix + gap + id + back
    && AllSpace(front) && SpellsPrefix(prefix) && AllSpace(gap) && AllSpace(back) && Trimmed(id)
  }

  /** The line says that there is no such object as `id`; blanks around it do not matter. */
  ghost predicate Names(line: string, id: string) {
    exists front: string, prefix: string, gap: string, back: string :: MadeOf(line, front, prefix, gap, id, back)
  }

  ghost predicate ReadsAs(line: string, id: string) {
    var l := Strip(line);
    ERROR_PREFIX <= Lower(l) && Strip(l[|ERROR_PREFIX|..]) == id
  }

  lemma {:induction false} SpelledLower(p: string)
    ensures SpellsPrefix(p) <==> Lower(p) == ERROR_PREFIX
  {
    if Lower(p) == ERROR_PREFIX {
      assert |p| == |ERROR_PREFIX|;
      forall i | 0 <= i < |p|
        ensures p[i] == ERROR_PREFIX[i] || ('a' <= ERROR_PREFIX[i] <= 'z' && p[i] as int == ERROR_PREFIX[i] as int - 32)
      {
        assert Lower(p)[i] == LowerChar(p[i]);
      }
    } else if SpellsPrefix(p) {
      forall i | 0 <= i < |p| ensures Lower(p)[i] == ERROR_PREFIX[i] {
        SpelledChar(p[i], ERROR_PREFIX, i);
      }
    }
  }

  lemma {:induction false} SpelledChar(ch: char, prefix: string, i: nat)
    requires i < |prefix| && prefix == "error: no such object: "
    requires ch == prefix[i] || ('a' <= prefix[i] <= 'z' && ch as int == prefix[i] as int - 'a' as int + 'A' as int)
    ensures LowerChar(ch) == prefix[i]
  {
  }

  /** Behind the prefix stands a non-blank, in front of it a letter. */
  lemma {:induction false} PrefixIsTrimmed(prefix: string, rest: string)
    requires SpellsPrefix(prefix)
    ensures rest != "" && !IsSpace(rest[|rest| - 1]) ==> Trimmed(prefix + rest)
    ensures !Trimmed(prefix)
  {
    SpelledLower(prefix);
    assert LowerChar(prefix[0]) == Lower(prefix)[0] == 'e';
    assert LowerChar(prefix[|prefix| - 1]) == Lower(prefix)[|prefix| - 1] == ' ';
  }

  lemma {:induction false} LowerSplits(prefix: string, rest: string)
    ensures Lower(prefix + rest)[..|prefix|] == Lower(prefix)
  {
  }

  lemma {:induction false} NamedReads(line: string, id: string)
    requires Names(line, id)
    ensures ReadsAs(line, id)
  {
    hide IsSpace, Strip, Lower, AllSpace, Trimmed, SpellsPrefix;
    var front: string, prefix: string, gap: string, back: string :| MadeOf(line, front, prefix, gap, id, back);
    LastOf(gap, id);
    PrefixIsTrimmed(prefix, gap + id);
    StripOf(front, prefix + (gap + id), back);
    assert line == front + (prefix + (gap + id)) + back;
    LowerSplits(prefix, gap + id);
    SpelledLower(prefix);
    assert (prefix + (gap + id))[|prefix|..] == gap + id + "";
    assert Strip(line) == prefix + (gap + id);
    LowerLength(Strip(line));
    LowerLength(prefix);
    assert Lower(Strip(line))[..|prefix|] == ERROR_PREFIX;
    NoSpace();
    StripOf(gap, id, "");
  }

  lemma {:induction false} NoSpace()
    ensures AllSpace("")
  {
  }

  lemma {:induction false} LastOf(gap: string, id: string)
    requires Trimmed(id)
    ensures gap + id != "" && !IsSpace((gap + id)[|gap + id| - 1])
  {
  }

  lemma {:induction false} TrimmedEnd(prefix: string, rest: string)
    requires Trimmed(prefix + rest) && rest != ""
    ensures !IsSpace(rest[|rest| - 1]) && !AllSpace(rest)
  {
    assert (prefix + rest)[|prefix + rest| - 1] == rest[|rest| - 1];
  }

  lemma {:induction false} SpacesJoin(a: string, b: string)
    requires AllSpace(a) && AllSpace(b)
    ensures AllSpace(a + b)
  {
  }

  lemma {:induction false} ReadIsNamed(line: string, id: string)
    requires ReadsAs(line, id)
    ensures Names(line, id)
  {
    hide IsSpace, Strip, Lower, AllSpace, Trimmed, SpellsPrefix;
    var l, n := Strip(line), |ERROR_PREFIX|;
    var front, back := StripSplits(line);
    LowerLength(l);
    var prefix, rest := l[..n], l[n..];
    assert l == prefix + rest;
    LowerSplits(prefix, rest);
    SpelledLower(prefix);
    PrefixIsTrimmed(prefix, rest);
    assert rest == "" ==> l == prefix;
    NothingRead(line, l);
    TrimmedEnd(prefix, rest);
    var gap, more := StripSplits(rest);
    SpacesJoin(more, back);
    assert line == front + prefix + gap + id + (more + back);
    assert MadeOf(line, front, prefix, gap, id, more + back);
  }

  lemma {:induction false} LowerLength(s: string)
    ensures |Lower(s)| == |s|
  {
  }

  lemma {:induction false} NothingRead(line: string, l: string)
    requires l == Strip(line) && |l| >= |ERROR_PREFIX|
    ensures Trimmed(l)
  {
    var front, back := StripSplits(line);
  }

  /** What one line adds to the ids. */
  ghost function Collected(line: string): set<string> {
    var l := Strip(line);
    if ERROR_PREFIX <= Lower(l) then {Strip(l[|ERROR_PREFIX|..])} else {}
  }

  lemma {:induction false} CollectedIs(line: string)
    ensures forall id :: id in Collected(line) <==> Names(line, id)
    ensures |Collected(line)| <= 1
    ensures AllSpace(line) ==> Collected(line) == {}
  {
    forall id ensures id in Collected(line) <==> Names(line, id) {
      assert id in Collected(line) <==> ReadsAs(line, id);
      if Names(line, id) {
        NamedReads(line, id);
      } else if ReadsAs(line, id) {
        ReadIsNamed(line, id);
      }
    }
    var front, back := StripSplits(line);
  }

  // ----- The whole error stream -----

  /** Every line that is not blank names something. */
  ghost predicate AllName(lines: seq<string>) {
    forall i | 0 <= i < |lines| && !AllSpace(lines[i]) :: exists id :: Names(lines[i], id)
  }

  ghost predicate NoneTwice(lines: seq<string>) {
    forall i, j, id | 0 <= i < j < |lines| && Names(lines[i], id) :: !Names(lines[j], id)
  }

  ghost predicate Named(lines: seq<string>, id: string) {
    exists i :: 0 <= i < |lines| && Names(lines[i], id)
  }

  lemma {:induction false} FirstLine(lines: seq<string>)
    requires lines != []
    ensures MissingObjectIds(NonBlank(lines)) == Collected(lines[0]) + MissingObjectIds(NonBlank(lines[1..]))
    ensures |NonBlank(lines)| == |NonBlank(lines[1..])| + if AllSpace(lines[0]) then 0 else 1
  {
    var front, back := StripSplits(lines[0]);
    var l := Strip(lines[0]);
    var rest := NonBlank(lines[1..]);
    if AllSpace(lines[0]) {
      CollectedIs(lines[0]);
      assert NonBlank(lines) == rest;
    } else {
      assert NonBlank(lines) == [l] + rest;
      assert forall x :: x in [l] + rest <==> x == l || x in rest;
    }
  }

  lemma {:induction false} NamedRest(lines: seq<string>)
    requires lines != []
    ensures forall id :: Named(lines, id) <==> Names(lines[0], id) || Named(lines[1..], id)
    ensures AllName(lines) <==> AllName(lines[1..]) && (AllSpace(lines[0]) || exists id :: Names(lines[0], id))
    ensures NoneTwice(lines) <==> NoneTwice(lines[1..]) && forall id | Names(lines[0], id) :: !Named(lines[1..], id)
  {
    hide Names, AllSpace;
    var rest := lines[1..];
    assert forall i | 0 <= i < |rest| :: rest[i] == lines[i + 1];
    assert forall i | 0 < i < |lines| :: lines[i] == rest[i - 1];
    if NoneTwice(rest) && forall id | Names(lines[0], id) :: !Named(rest, id) {
      forall i, j, id | 0 <= i < j < |lines| && Names(lines[i], id) ensures !Names(lines[j], id) {
        assert lines[j] == rest[j - 1];
        assert i > 0 ==> lines[i] == rest[i - 1];
      }
    }
  }

  /** What the program collects from the lines, and when it has one id for each. */
  lemma {:induction false} NamedIds(lines: seq<string>)
    ensures var ids := MissingObjectIds(NonBlank(lines));
            && (forall id :: id in ids <==> Named(lines, id))
            && |ids| <= |NonBlank(lines)|
            && (|ids| == |NonBlank(lines)| <==> AllName(lines) && NoneTwice(lines))
  {
    hide Names, AllSpace, Collected, AllName, NoneTwice;
    if lines == [] {
      NothingToCollect();
    } else {
      hide MissingObjectIds, NonBlank, Named;
      NamedIds(lines[1..]);
      FirstLine(lines);
      NamedRest(lines);
      CollectedIs(lines[0]);
      OneMore(Collected(lines[0]), MissingObjectIds(NonBlank(lines[1..])));
    }
  }

  lemma {:induction false} NothingToCollect()
    ensures MissingObjectIds(NonBlank([])) == {} && AllName([]) && NoneTwice([])
    ensures forall id :: !Named([], id)
  {
  }

  lemma {:induction false} OneMore(one: set<string>, others: set<string>)
    requires |one| <= 1
    ensures |one + others| == if one == {} || one <= others then |others| else |others| + 1
    ensures one <= others || one !! others
  {
    if one != {} {
      var id :| id in one;
      assert one == {id} by {
        assert |one - {id}| == 0;
      }
      if id in others {
        assert one + others == others;
      } else {
        assert |one + others| == |others| + 1;
      }
    } else {
      assert one + others == others;
    }
  }

  // ----- The decision -----

  /** The container was polled and has no record. */
  ghost predicate Unanswered<R>(opening: map<string, R>, records: seq<Record>, id: string) {
    id in opening && forall r | r in records :: r.id != id
  }

  /** Docker failed, naming the containers without a record one line each and nothing else;
      there is one, and none of them is registered any more. */
  ghost predicate OrdinaryRace<R>(opening: map<string, R>, answer: Inspection, current: set<string>)
    requires answer.Completed?
  {
    && answer.exitCode != 0
    && (exists id :: Unanswered(opening, answer.records, id))
    && (forall id | Unanswered(opening, answer.records, id) :: id !in current)
    && (forall id :: Named(answer.errorLines, id) <==> Unanswered(opening, answer.records, id))
    && AllName(answer.errorLines) && NoneTwice(answer.errorLines)
  }

  lemma {:induction false} RaceIff<R>(opening: map<string, R>, answer: Inspection, current: set<string>)
    requires answer.Completed?
    ensures CleanupRace(opening, answer, current) <==> OrdinaryRace(opening, answer, current)
  {
    hide Named, AllName, NoneTwice, MissingObjectIds, NonBlank;
    NamedIds(answer.errorLines);
    var missing := opening.Keys - RecordIds(answer.records);
    forall id ensures id in missing <==> Unanswered(opening, answer.records, id) {
    }
    assert missing - current == missing <==> forall id | id in missing :: id !in current;
  }

  /** Whether an answer is accepted, on Docker's output: at once if Docker succeeded with a
      record for each container, and otherwise, at the check, exactly for an ordinary race. */
  lemma {:induction false} AcceptedIff<R>(c: Config, s: Sys<R>, answer: Inspection)
    requires s.pc.Inspecting? && answer.Completed?
    ensures var t := Apply(c, s, Inspect(answer));
            && (t.pc.Accepted? <==> answer.exitCode == 0 && |answer.records| == |s.pc.opening|)
            && (!t.pc.Accepted? ==> t.pc == Checking(s.pc.opening, answer))
  {
    hide CleanupRace;
  }

  lemma {:induction false} ToleratedIff<R>(c: Config, s: Sys<R>)
    requires s.pc.Checking? && s.pc.inspection.Completed?
    ensures var t := Apply(c, s, CheckRace);
            && (t.pc.Accepted? <==> OrdinaryRace(s.pc.opening, s.pc.inspection, s.states.Keys))
            && (t.pc.Accepted? ==> t.pc == Accepted(s.pc.opening, s.pc.inspection, Some(s.states))
                                   && t.monitorFailures == s.monitorFailures)
            && (!t.pc.Accepted? ==> t.monitorFailures == s.monitorFailures + 1)
  {
    hide OrdinaryRace, CleanupRace;
    RaceIff(s.pc.opening, s.pc.inspection, s.states.Keys);
  }

  /** A poll asks for the containers registered when it begins, and judges those registered
      when its answer is accepted. */
  lemma {:induction false} PollSnapshots<R>(c: Config, s: Sys<R>)
    ensures s.pc.Waiting? ==>
              Apply(c, s, OpenPoll).pc == if s.states == map[] then Waiting else Inspecting(s.states)
    ensures s.pc.Accepted? ==>
              var t := Apply(c, s, AcceptPoll);
              && t.pc.Scanning? && t.pc.next == 0 && t.pc.poll.opening == s.pc.opening && t.pc.poll.closing == s.states
              && t.pc.poll.inspection == s.pc.inspection
  {
  }

  // ----- What Docker prints -----

  /** The error stream of a Docker that misses these containers. */
  function Complaints(gone: seq<string>): seq<string> {
    seq(|gone|, i requires 0 <= i < |gone| => "Error: No such object: " + gone[i])
  }

  lemma {:induction false} ComplaintNames(id: string)
    requires Trimmed(id)
    ensures Names("Error: No such object: " + id, id)
  {
    var prefix := "Error: No such object: ";
    CapitalSpells(prefix);
    assert prefix + id == "" + prefix + "" + id + "";
    assert MadeOf(prefix + id, "", prefix, "", id, "");
  }

  lemma {:induction false} CapitalSpells(p: string)
    requires p == "Error: No such object: "
    ensures SpellsPrefix(p)
  {
    var prefix := "error: no such object: ";
    var middle, end := "rror: ", "o such object: ";
    assert p == ['E'] + middle + ['N'] + end;
    assert prefix == ['e'] + middle + ['n'] + end;
    OtherCase(p, prefix, middle, end);
  }

  lemma {:induction false} OtherCase(p: string, prefix: string, middle: string, end: string)
    requires p == ['E'] + middle + ['N'] + end && prefix == ['e'] + middle + ['n'] + end
    ensures |p| == |prefix|
    ensures forall i | 0 <= i < |p| ::
              p[i] == prefix[i] || ('a' <= prefix[i] <= 'z' && p[i] as int == prefix[i] as int - 'a' as int + 'A' as int)
  {
  }

  /** The ordinary case: containers were unregistered during the poll, and Docker exits with
      an error and says of exactly these that they are gone.  The poll is accepted. */
  lemma {:induction false} GoneContainersAreTolerated<R>(c: Config, s: Sys<R>, gone: seq<string>)
    requires s.pc.Checking? && s.pc.inspection.Completed? && s.pc.inspection.exitCode != 0
    requires gone != [] && NoDuplicates(gone) && forall id | id in gone :: Trimmed(id) && id !in s.states
    requires forall id :: id in gone <==> Unanswered(s.pc.opening, s.pc.inspection.records, id)
    requires s.pc.inspection.errorLines == Complaints(gone)
    ensures Apply(c, s, CheckRace).pc == Accepted(s.pc.opening, s.pc.inspection, Some(s.states))
  {
    hide Names, CleanupRace, AllSpace, Trimmed, Apply, Enabled;
    var lines := s.pc.inspection.errorLines;
    forall i, id | 0 <= i < |lines| ensures Names(lines[i], id) <==> id == gone[i] {
      ComplaintNames(gone[i]);
      if Names(lines[i], id) {
        NamesOnce(lines[i], id, gone[i]);
      }
    }
    assert gone[0] in gone;
    forall id ensures Named(lines, id) <==> id in gone {
      if id in gone {
        var i :| 0 <= i < |gone| && gone[i] == id;
        assert Names(lines[i], id);
      }
    }
    forall i | 0 <= i < |lines| ensures Names(lines[i], gone[i]) {
    }
    assert AllName(lines) && NoneTwice(lines);
    assert Unanswered(s.pc.opening, s.pc.inspection.records, gone[0]);
    ToleratedIff(c, s);
  }

  lemma {:induction false} NamesOnce(line: string, id: string, other: string)
    requires Names(line, id) && Names(line, other)
    ensures id == other
  {
    NamedReads(line, id);
    NamedReads(line, other);
  }
}
