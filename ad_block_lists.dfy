/**
 * The two ad-server lists that the DNS daemon merges into its blacklist: the
 * plain host-name list published by pgl.yoyo.org and the hosts file published
 * by winhelp2002.mvps.org. The HTTP download is not modelled: each parser
 * receives the outcome of the fetch, `None` when the request failed or the
 * status was not 2xx, otherwise the response body.
 */
module AdBlockLists {
  import opened Wrappers
  import opened Strings

  /** A list with fewer entries than this is considered suspicious and refused. */
  const MinEntries := 100

  /** The hosts-file marker that precedes a blocked host name. */
  const BlackHoleAddress := "0.0.0.0"

  datatype ListError =
    | FetchFailed          // the HTTP request failed or answered with a non-2xx status
    | TooShort(count: nat) // fewer than MinEntries lines (PGL) or names (MVPS)

  /* ---------------------------------------------------------------- PGL */

  /** The PGL list names one host per line: every line, trimmed, is a name. */
  function PglNames(lines: seq<string>): seq<string>
  {
    seq(|lines|, i requires 0 <= i < |lines| => TrimSpace(lines[i]))
  }

  /**
   * What the PGL download yields: split the body at '\n', refuse a body of
   * fewer than MinEntries lines (empty lines count), otherwise every line trimmed.
   */
  function PglOutcome(fetched: Option<string>): Result<seq<string>, ListError>
  {
    match fetched
    case None => Failure(FetchFailed)
    case Some(body) =>
      var lines := Split(body, '\n');
      if |lines| < MinEntries then Failure(TooShort(|lines|)) else Success(PglNames(lines))
  }

  /** GetAdBlacklistPGL: the list of the PGL download, built line by line. */
  method GetAdBlacklistPGL(fetched: Option<string>) returns (r: Result<seq<string>, ListError>)
    ensures r == PglOutcome(fetched)
  {
    if fetched.None? {
      return Failure(FetchFailed);
    }
    var lines := Split(fetched.value, '\n');
    if |lines| < MinEntries {
      return Failure(TooShort(|lines|));
    }
    var names: seq<string> := [];
    var i := 0;
    while i < |lines|
      invariant 0 <= i <= |lines|
      invariant |names| == i
      invariant forall j :: 0 <= j < i ==> names[j] == TrimSpace(lines[j])
    {
      names := names + [TrimSpace(lines[i])];
      i := i + 1;
    }
    assert names == PglNames(lines);
    return Success(names);
  }

  /** A PGL body is refused exactly when it holds fewer than MinEntries - 1 newlines. */
  lemma PglRefusedIff(body: string)
    ensures PglOutcome(Some(body)).Failure? <==> multiset(body)['\n'] < MinEntries - 1
  {
    SplitCount(body, '\n');
  }

  /**
   * An accepted PGL body of n newlines yields n + 1 names (at least MinEntries),
   * each already trimmed and free of newlines.
   */
  lemma PglNamesClean(body: string)
    requires PglOutcome(Some(body)).Success?
    ensures var names := PglOutcome(Some(body)).value;
      && |names| == multiset(body)['\n'] + 1 >= MinEntries
      && forall i :: 0 <= i < |names| ==> '\n' !in names[i] && Trimmed(names[i])
  {
    var lines := Split(body, '\n');
    var names := PglNames(lines);
    SplitCount(body, '\n');
    SplitPieces(body, '\n');
    forall i | 0 <= i < |names|
      ensures '\n' !in names[i] && Trimmed(names[i])
    {
      assert lines[i] in lines;
      TrimSpaceSubset(lines[i]);
    }
  }

  /* --------------------------------------------------------------- MVPS */

  /**
   * The host name on one line of the MVPS hosts file: the text between the
   * first "0.0.0.0" and the first '#' (or the end of the line), trimmed. A line
   * without the marker, or whose comment starts before the marker ends, names
   * nothing.
   */
  function MvpsName(line: string): (r: Option<string>)
    ensures r.Some? ==> |r.value| + |BlackHoleAddress| <= |line|
  {
    var indexZero := IndexOf(line, BlackHoleAddress);
    var hash := IndexOfChar(line, '#');
    if indexZero == -1 then None
    else
      var nameEnd := if hash == -1 then |line| else hash;
      var nameBegin := indexZero + |BlackHoleAddress|;
      if nameBegin >= nameEnd then None
      else Some(TrimSpace(line[nameBegin..nameEnd]))
  }

  /** The values present in `found`, in order; the absent ones are skipped. */
  function Somes(found: seq<Option<string>>): (r: seq<string>)
    ensures |r| <= |found|
  {
    if |found| == 0 then []
    else
      var before := Somes(found[..|found| - 1]);
      match found[|found| - 1]
      case None => before
      case Some(name) => before + [name]
  }

  /** One more value adds itself when present. */
  lemma SomesStep(found: seq<Option<string>>, o: Option<string>)
    ensures Somes(found + [o]) == Somes(found) + (if o.Some? then [o.value] else [])
  {
    assert (found + [o])[..|found|] == found;
  }

  /** What the hosts file names, line by line. */
  function MvpsFound(lines: seq<string>): seq<Option<string>>
  {
    seq(|lines|, j requires 0 <= j < |lines| => MvpsName(lines[j]))
  }

  /** The names of all lines of the hosts file, in line order. */
  function MvpsNames(lines: seq<string>): seq<string>
  {
    Somes(MvpsFound(lines))
  }

  /**
   * What the MVPS download yields: the name of every line of the hosts file,
   * refused when fewer than MinEntries names were found.
   */
  function MvpsOutcome(fetched: Option<string>): Result<seq<string>, ListError>
  {
    match fetched
    case None => Failure(FetchFailed)
    case Some(body) =>
      var names := MvpsNames(Split(body, '\n'));
      if |names| < MinEntries then Failure(TooShort(|names|)) else Success(names)
  }

  /** GetAdBlacklistMVPS: the list of the MVPS download, built line by line. */
  method GetAdBlacklistMVPS(fetched: Option<string>) returns (r: Result<seq<string>, ListError>)
    ensures r == MvpsOutcome(fetched)
  {
    if fetched.None? {
      return Failure(FetchFailed);
    }
    var lines := Split(fetched.value, '\n');
    var names: seq<string> := [];
    ghost var found: seq<Option<string>> := [];
    var i := 0;
    while i < |lines|
      invariant 0 <= i <= |lines|
      invariant |found| == i && forall j :: 0 <= j < i ==> found[j] == MvpsName(lines[j])
      invariant names == Somes(found)
    {
      var name := MvpsName(lines[i]);
      SomesStep(found, name);
      found := found + [name];
      if name.Some? {
        names := names + [name.value];
      }
      i := i + 1;
    }
    assert found == MvpsFound(lines);
    if |names| < MinEntries {
      return Failure(TooShort(|names|));
    }
    return Success(names);
  }

  /** A line without the marker names nothing. */
  lemma MvpsNameNeedsMarker(line: string)
    requires forall k :: !OccursAt(line, BlackHoleAddress, k)
    ensures MvpsName(line) == None
  {
    assert IndexOf(line, BlackHoleAddress) == -1;
  }

  /**
   * A name read from a line is trimmed, holds no comment character and only
   * characters of the line (so no newline when the line came from the split).
   */
  lemma MvpsNameClean(line: string)
    ensures var r := MvpsName(line);
      r.Some? ==>
        && '#' !in r.value
        && Trimmed(r.value)
        && forall c :: c in r.value ==> c in line
  {
    var indexZero := IndexOf(line, BlackHoleAddress);
    var hash := IndexOfChar(line, '#');
    IndexOfCharFirst(line, '#');
    if indexZero != -1 {
      var nameEnd := if hash == -1 then |line| else hash;
      var nameBegin := indexZero + |BlackHoleAddress|;
      if nameBegin < nameEnd {
        var piece := line[nameBegin..nameEnd];
        SliceChars(line, nameBegin, nameEnd);
        if hash != -1 {
          assert line[..hash][nameBegin..hash] == piece;
          SliceChars(line[..hash], nameBegin, hash);
        }
        assert '#' !in piece;
        TrimSpaceSubset(piece);
        assert MvpsName(line) == Some(TrimSpace(piece));
      }
    }
  }

  /**
   * Parsing a hosts-file entry "0.0.0.0 <name>" gives back the name, for any
   * trimmed, non-empty name free of '#'.
   */
  lemma MvpsNameOfEntry(name: string)
    requires name != [] && Trimmed(name) && '#' !in name
    ensures MvpsName(BlackHoleAddress + " " + name) == Some(name)
  {
    var line := BlackHoleAddress + " " + name;
    assert line[..|BlackHoleAddress|] == BlackHoleAddress;
    assert IndexOf(line, BlackHoleAddress) == 0;
    forall k | 0 <= k < |line| ensures line[k] != '#' {
      if k < |BlackHoleAddress| {
        assert line[k] == BlackHoleAddress[k];
      } else if k > |BlackHoleAddress| {
        assert line[k] == name[k - |BlackHoleAddress| - 1];
      }
    }
    IndexOfCharFirst(line, '#');
    var piece := line[|BlackHoleAddress|..];
    assert piece == [' '] + name;
    assert piece[1] == name[0] && piece[|piece| - 1] == name[|name| - 1];
    assert SpanStart(piece, 0) == 1;
    assert SpanEnd(piece, 1, |piece|) == |piece|;
    assert piece[1..] == name;
    assert TrimSpace(piece) == name;
    assert IndexOfChar(line, '#') == -1;
    assert line[|BlackHoleAddress|..|line|] == piece;
  }

  /** Every value kept is present in `found`. */
  lemma {:induction false} SomesSound(found: seq<Option<string>>)
    ensures forall name :: name in Somes(found) ==> Some(name) in found
    decreases |found|
  {
    if |found| > 0 {
      var init := found[..|found| - 1];
      SomesSound(init);
      assert found == init + [found[|found| - 1]];
    }
  }

  /** Every value present in `found` is kept. */
  lemma {:induction false} SomesComplete(found: seq<Option<string>>)
    ensures forall j :: 0 <= j < |found| && found[j].Some? ==> found[j].value in Somes(found)
    decreases |found|
  {
    if |found| > 0 {
      var init := found[..|found| - 1];
      SomesComplete(init);
      assert forall j :: 0 <= j < |init| ==> found[j] == init[j];
    }
  }

  /**
   * The MVPS list holds exactly the names of the lines: each of its names is
   * the name of some line, and the name of every line is in it.
   */
  lemma MvpsNamesExact(lines: seq<string>)
    ensures forall name :: name in MvpsNames(lines) ==> exists j :: 0 <= j < |lines| && MvpsName(lines[j]) == Some(name)
    ensures forall j :: 0 <= j < |lines| && MvpsName(lines[j]).Some? ==> MvpsName(lines[j]).value in MvpsNames(lines)
  {
    var found := MvpsFound(lines);
    SomesSound(found);
    SomesComplete(found);
    forall name | name in MvpsNames(lines)
      ensures exists j :: 0 <= j < |lines| && MvpsName(lines[j]) == Some(name)
    {
      var j :| 0 <= j < |found| && found[j] == Some(name);
    }
    forall j | 0 <= j < |lines| && MvpsName(lines[j]).Some?
      ensures MvpsName(lines[j]).value in MvpsNames(lines)
    {
      assert found[j] == MvpsName(lines[j]);
    }
  }

  /**
   * An accepted MVPS list has at least MinEntries names, each of them trimmed
   * and free of comment characters and newlines.
   */
  lemma MvpsNamesClean(body: string)
    requires MvpsOutcome(Some(body)).Success?
    ensures var names := MvpsOutcome(Some(body)).value;
      && |names| >= MinEntries
      && forall name :: name in names ==> Trimmed(name) && '#' !in name && '\n' !in name
  {
    var lines := Split(body, '\n');
    var names := MvpsNames(lines);
    MvpsNamesExact(lines);
    SplitPieces(body, '\n');
    forall name | name in names
      ensures Trimmed(name) && '#' !in name && '\n' !in name
    {
      var j :| 0 <= j < |lines| && MvpsName(lines[j]) == Some(name);
      MvpsNameClean(lines[j]);
      assert lines[j] in lines;
    }
  }
}
