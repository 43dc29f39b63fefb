/** A region path is a comma-separated list of region names, one per level of the
    hierarchy, read from a root downward ("Country,Province,City"). */
module RegionPath {

  const Delimiter: char := ','

  /** Number of delimiters in `s`. */
  function Delimiters(s: string): nat
  {
    if s == [] then 0 else (if s[0] == Delimiter then 1 else 0) + Delimiters(s[1..])
  }

  /** The pieces of `s` between delimiters, in order, empty pieces kept
      (the behaviour of Python's `str.split(',')`). */
  function Split(s: string): (pieces: seq<string>)
    ensures |pieces| == Delimiters(s) + 1
    ensures forall k :: 0 <= k < |pieces| ==> Delimiter !in pieces[k]
  {
    if s == [] then [""]
    else
      var rest := Split(s[1..]);
      if s[0] == Delimiter then [""] + rest
      else [[s[0]] + rest[0]] + rest[1..]
  }

  /** The pieces separated by single delimiters (Python's `','.join`). */
  function Join(pieces: seq<string>): string
    requires |pieces| >= 1
  {
    if |pieces| == 1 then pieces[0] else pieces[0] + [Delimiter] + Join(pieces[1..])
  }

  /** Splitting loses nothing: joining the pieces gives back the path. */
  lemma {:induction false} JoinSplit(s: string)
    ensures Join(Split(s)) == s
  {
    if s != [] {
      JoinSplit(s[1..]);
      var rest := Split(s[1..]);
      if s[0] != Delimiter && |rest| > 1 {
        assert Join(rest) == rest[0] + [Delimiter] + Join(rest[1..]);
        assert rest[1..] == (rest[1..])[..];
      }
    }
  }

  /** A name without delimiters is a single piece. */
  lemma {:induction false} SplitName(name: string)
    requires Delimiter !in name
    ensures Split(name) == [name]
  {
    if name != [] {
      SplitName(name[1..]);
      assert name[0] != Delimiter && [name[0]] + name[1..] == name;
    }
  }

  /** A leading name followed by a delimiter splits off as the first piece. */
  lemma {:induction false} SplitLeading(name: string, tail: string)
    requires Delimiter !in name
    ensures Split(name + [Delimiter] + tail) == [name] + Split(tail)
  {
    var s := name + [Delimiter] + tail;
    if name == [] {
      assert s[1..] == tail;
    } else {
      assert s[0] == name[0] != Delimiter;
      assert s[1..] == name[1..] + [Delimiter] + tail;
      SplitLeading(name[1..], tail);
      assert [name[0]] + name[1..] == name;
    }
  }

  /** Names without delimiters survive a join and a split unchanged. */
  lemma {:induction false} SplitJoin(names: seq<string>)
    requires |names| >= 1
    requires forall k :: 0 <= k < |names| ==> Delimiter !in names[k]
    ensures Split(Join(names)) == names
  {
    if |names| == 1 {
      SplitName(names[0]);
    } else {
      SplitJoin(names[1..]);
      SplitLeading(names[0], Join(names[1..]));
    }
  }
}
