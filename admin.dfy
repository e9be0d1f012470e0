/**
 * The administrator's password-reset tool (`admin-reset/src/main.rs`): the
 * generator of new passwords, and the parser that reads the database
 * credentials out of the connection-string file. The two random generators
 * are given as the sequences of values they produce, and the file as its
 * text.
 */
module AdminReset {

  import opened Wrappers
  import opened Text

  // ---------------------------------------------------------------------
  // `new_password`
  // ---------------------------------------------------------------------

  type U64 = x: int | 0 <= x <= U64Max

  /** The 36 symbols a password is made of. */
  const Alphabet: string := "abcdefghijklmnopqrstuvwxyz0123456789"

  /** The value the password's character at `p` comes from: even places draw from `OsRng`, odd ones from ChaCha20. */
  function DrawFor(osDraw: nat -> U64, chaDraw: nat -> U64, p: nat): U64 {
    if p % 2 == 0 then osDraw(p / 2) else chaDraw(p / 2)
  }

  /**
   * `new_password(length)`. `osDraw(k)` and `chaDraw(k)` are the `k`-th
   * `next_u64()` of the two generators. The password has exactly `length`
   * characters, all from the alphabet: character `2k` is the `k`-th draw of
   * the first generator and character `2k + 1` the `k`-th draw of the
   * second, reduced modulo 36.
   */
  method NewPassword(length: nat, osDraw: nat -> U64, chaDraw: nat -> U64) returns (result: string)
    ensures |result| == length
    ensures forall p :: 0 <= p < |result| ==> result[p] in Alphabet
    ensures forall p :: 0 <= p < |result| ==> result[p] == Alphabet[DrawFor(osDraw, chaDraw, p) % |Alphabet|]
  {
    var n: U64 := |Alphabet|;
    result := "";
    var x: U64 := 0;
    var y: U64 := 0;
    var i: nat := 0;
    var j: nat := 0;
    while |result| < length
      invariant |result| <= length && i == j
      invariant |result| == 2 * i || (|result| == length && |result| + 1 == 2 * i)
      invariant x < n && (|result| < length ==> y < n)
      invariant forall p :: 0 <= p < |result| ==> result[p] == Alphabet[DrawFor(osDraw, chaDraw, p) % n]
      decreases length - |result|
    {
      if x < n {
        x := osDraw(i);
        i := i + 1;
      }
      if y < n {
        y := chaDraw(j);
        j := j + 1;
      }
      result := result + [Alphabet[x % n]];
      x := x % n;
      if |result| < length {
        result := result + [Alphabet[y % n]];
        y := y % n;
      }
    }
  }

  // ---------------------------------------------------------------------
  // The text operations `load_credentials` uses
  // ---------------------------------------------------------------------

  /** The pieces of `s` between its `'\n'` characters: one more piece than there are newlines. */
  function Pieces(s: string): (r: seq<string>)
    ensures |r| > 0
    ensures forall k :: 0 <= k < |r| ==> '\n' !in r[k]
    decreases |s|
  {
    if s == [] then [""]
    else
      var rest := Pieces(s[1..]);
      if s[0] == '\n' then [""] + rest else [[s[0]] + rest[0]] + rest[1..]
  }

  /** The pieces joined back with newlines. */
  function JoinLines(ps: seq<string>): string
    requires |ps| > 0
    decreases |ps|
  {
    if |ps| == 1 then ps[0] else ps[0] + "\n" + JoinLines(ps[1..])
  }

  /** Splitting at newlines loses nothing: the pieces, joined back with newlines, are the text. */
  lemma {:induction false} PiecesJoin(s: string)
    ensures JoinLines(Pieces(s)) == s
    decreases |s|
  {
    if s != [] {
      var rest := Pieces(s[1..]);
      PiecesJoin(s[1..]);
      if s[0] == '\n' {
        assert ([""] + rest)[1..] == rest;
      } else {
        var ps := [[s[0]] + rest[0]] + rest[1..];
        if |rest| > 1 {
          assert ps[1..] == rest[1..];
          assert JoinLines(rest) == rest[0] + "\n" + JoinLines(rest[1..]);
        }
      }
    }
  }

  /** A line without its final `'\r'`. */
  function StripCr(l: string): (r: string)
    ensures l == r || l == r + ['\r']
    ensures |l| > 0 && l[|l| - 1] == '\r' ==> l == r + ['\r']
  {
    if |l| > 0 && l[|l| - 1] == '\r' then l[..|l| - 1] else l
  }

  /** `str::lines`: the pieces between newlines, without a final empty one, each without a final `'\r'`. */
  function Lines(s: string): (r: seq<string>)
    ensures var ps := Pieces(s);
            var n := if ps[|ps| - 1] == "" then |ps| - 1 else |ps|;
            |r| == n && forall k :: 0 <= k < n ==> r[k] == StripCr(ps[k])
    ensures forall k :: 0 <= k < |r| ==> '\n' !in r[k]
  {
    var ps := Pieces(s);
    var ps' := if ps[|ps| - 1] == "" then ps[..|ps| - 1] else ps;
    seq(|ps'|, k requires 0 <= k < |ps'| => StripCr(ps'[k]))
  }

  /** A text without newlines is one piece. */
  lemma {:induction false} PiecesOfLine(p: string)
    requires '\n' !in p
    ensures Pieces(p) == [p]
    decreases |p|
  {
    if p != [] {
      PiecesOfLine(p[1..]);
      assert [p[0]] + p[1..] == p;
    }
  }

  /** A piece followed by a newline comes off the front of the pieces. */
  lemma {:induction false} PiecesCons(p: string, t: string)
    requires '\n' !in p
    ensures Pieces(p + "\n" + t) == [p] + Pieces(t)
    decreases |p|
  {
    var s := p + "\n" + t;
    if p == [] {
      assert s == "\n" + t && s[1..] == t;
    } else {
      assert s[0] == p[0] && s[1..] == p[1..] + "\n" + t;
      PiecesCons(p[1..], t);
      assert [p[0]] + p[1..] == p;
    }
  }

  /** Splitting at newlines undoes joining with them: the inverse of `PiecesJoin`. */
  lemma {:induction false} PiecesOfJoin(ps: seq<string>)
    requires |ps| > 0 && forall k :: 0 <= k < |ps| ==> '\n' !in ps[k]
    ensures Pieces(JoinLines(ps)) == ps
    decreases |ps|
  {
    if |ps| == 1 {
      PiecesOfLine(ps[0]);
    } else {
      PiecesOfJoin(ps[1..]);
      PiecesCons(ps[0], JoinLines(ps[1..]));
      assert ps == [ps[0]] + ps[1..];
    }
  }

  /** The lines of a text whose every line ends with `"\n"` (or with `"\r\n"`, when `crlf`). */
  function Terminated(ls: seq<string>, crlf: bool): (ps: seq<string>)
    ensures |ps| == |ls| + 1 && ps[|ls|] == ""
    ensures forall k :: 0 <= k < |ls| ==> ps[k] == if crlf then ls[k] + "\r" else ls[k]
  {
    seq(|ls| + 1, k requires 0 <= k <= |ls| => if k == |ls| then "" else if crlf then ls[k] + "\r" else ls[k])
  }

  /**
   * `str::lines` gives back the lines of a text in which each line is
   * followed by a newline, whether the newlines are `"\n"` or `"\r\n"`.
   */
  lemma LinesOfTerminated(ls: seq<string>, crlf: bool)
    requires forall k :: 0 <= k < |ls| ==> '\n' !in ls[k] && (ls[k] == [] || ls[k][|ls[k]| - 1] != '\r')
    ensures Lines(JoinLines(Terminated(ls, crlf))) == ls
  {
    var ps := Terminated(ls, crlf);
    forall k | 0 <= k < |ps|
      ensures '\n' !in ps[k]
    {
      if k < |ls| && crlf {
        assert ps[k] == ls[k] + "\r";
      }
    }
    PiecesOfJoin(ps);
    var r := Lines(JoinLines(ps));
    forall k | 0 <= k < |ls|
      ensures r[k] == ls[k]
    {
      StripTerminator(ls[k], crlf);
    }
  }

  /** `StripCr` removes the `'\r'` of a `"\r\n"` terminator, and nothing from a line that does not end with one. */
  lemma StripTerminator(l: string, crlf: bool)
    requires l == [] || l[|l| - 1] != '\r'
    ensures StripCr(if crlf then l + "\r" else l) == l
  {
    if crlf {
      assert (l + "\r")[..|l|] == l;
    }
  }

  /** `.filter(|x| x.contains(needle)).next()`. */
  function FirstContaining(lines: seq<string>, needle: string): (r: Option<string>)
    ensures r.None? <==> forall k :: 0 <= k < |lines| ==> !Contains(lines[k], needle)
    ensures r.Some? ==> exists k :: 0 <= k < |lines| && lines[k] == r.value && Contains(r.value, needle)
                                    && forall k' :: 0 <= k' < k ==> !Contains(lines[k'], needle)
    decreases |lines|
  {
    if lines == [] then None
    else if Contains(lines[0], needle) then Some(lines[0])
    else
      var r := FirstContaining(lines[1..], needle);
      assert forall k :: 1 <= k < |lines| ==> lines[k] == lines[1..][k - 1];
      if r.Some? then
        var k :| 0 <= k < |lines[1..]| && lines[1..][k] == r.value && Contains(r.value, needle)
                 && forall k' :: 0 <= k' < k ==> !Contains(lines[1..][k'], needle);
        assert lines[k + 1] == r.value;
        r
      else r
  }

  /** `str::find` for a string needle: the first index where it occurs. */
  function Find(s: string, needle: string, from: nat): (r: Option<nat>)
    requires from <= |s|
    ensures r.Some? ==> from <= r.value && OccursAt(s, needle, r.value)
                        && forall k :: from <= k < r.value ==> !OccursAt(s, needle, k)
    ensures r.None? ==> forall k :: from <= k <= |s| ==> !OccursAt(s, needle, k)
    decreases |s| - from
  {
    if OccursAt(s, needle, from) then Some(from)
    else if from == |s| then None
    else Find(s, needle, from + 1)
  }

  /** `str::split_whitespace`: the maximal runs of characters that are not white space, in order. */
  function SplitWhitespace(s: string): (r: seq<string>)
    ensures forall k :: 0 <= k < |r| ==> |r[k]| > 0 && forall c :: c in r[k] ==> !IsWhitespace(c)
    decreases |s|
  {
    var t := TrimStart(s);
    if t == [] then []
    else
      var n := SkipForward(t, 0, iset c | !IsWhitespace(c));
      [t[..n]] + SplitWhitespace(t[n..])
  }

  /**
   * The words and the white space around them put the text back together:
   * everything between two words is a non-empty run of white space, and the
   * text before the first word is exactly what `trim_start` drops.
   */
  lemma {:induction false} SplitWhitespaceReassembles(s: string) returns (gaps: seq<string>)
    ensures Reassembles(gaps, SplitWhitespace(s), s)
    ensures gaps[0] == LeadingWhitespace(s)
    ensures InnerGapsNonEmpty(gaps)
    decreases |s|
  {
    if TrimStart(s) == [] {
      assert LeadingWhitespace(s) == s;
      gaps := [s];
    } else {
      var word, rest := FirstWord(s);
      var g := SplitWhitespaceReassembles(rest);
      ReassemblesCons(LeadingWhitespace(s), word, rest, g, SplitWhitespace(rest));
      if |g| > 1 {
        SplitWhitespaceOfEmpty(rest);
        GapBeforeWord(rest);
      }
      gaps := [LeadingWhitespace(s)] + g;
      InnerGapsCons(LeadingWhitespace(s), g);
    }
  }

  /** Every gap but the first and the last is non-empty. */
  predicate InnerGapsNonEmpty(gaps: seq<string>) {
    forall k :: 0 < k < |gaps| - 1 ==> |gaps[k]| > 0
  }

  lemma InnerGapsCons(w: string, g: seq<string>)
    requires |g| > 0 && InnerGapsNonEmpty(g) && (|g| > 1 ==> |g[0]| > 0)
    ensures InnerGapsNonEmpty([w] + g)
  {
    var gaps := [w] + g;
    forall k | 0 < k < |gaps| - 1
      ensures |gaps[k]| > 0
    {
      assert gaps[k] == g[k - 1];
    }
  }

  /** The first word of a text that is not all white space, and the text after it. */
  lemma FirstWord(s: string) returns (word: string, rest: string)
    requires TrimStart(s) != []
    ensures SplitWhitespace(s) == [word] + SplitWhitespace(rest)
    ensures LeadingWhitespace(s) + (word + rest) == s && |rest| < |s|
    ensures rest == [] || IsWhitespace(rest[0])
  {
    var t := TrimStart(s);
    var n := SkipForward(t, 0, iset c | !IsWhitespace(c));
    word, rest := t[..n], t[n..];
    assert t == word + rest;
  }

  lemma SplitWhitespaceOfEmpty(s: string)
    ensures s == [] ==> SplitWhitespace(s) == []
  {
  }

  /** A text that starts with white space has a non-empty run of it in front. */
  lemma GapBeforeWord(s: string)
    requires s != [] && IsWhitespace(s[0])
    ensures |LeadingWhitespace(s)| > 0
  {
  }

  // ---------------------------------------------------------------------
  // `load_credentials`
  // ---------------------------------------------------------------------

  datatype Credentials = Credentials(database: string, username: string, password: string)

  /** The host whose connection line holds the credentials. */
  const Host: string := "rusty-games.eu"

  /** The characters `trim_matches` strips from the connection string. */
  const Quoting: set<char> := {'"', ',', ' '}

  /**
   * The whitespace-separated properties of the connection string: the first
   * line naming the host, trimmed, after its first `=>`, with quotes, commas
   * and spaces trimmed from both ends. None stands for the panics of the two
   * `unwrap`s: no line names the host, or that line has no `=>`.
   */
  function ConnectionProperties(file: string): (r: Option<seq<string>>)
    ensures r.None? <==> match FirstContaining(Lines(file), Host)
                         case None => true
                         case Some(line) => !Contains(Trim(line), "=>")
    ensures r.Some? ==> PropertiesOf(Trim(FirstContaining(Lines(file), Host).value), r.value)
  {
    match FirstContaining(Lines(file), Host)
    case None => None
    case Some(line) => AfterArrow(Trim(line))
  }

  /** `props` are the words after the first `=>` of `t`, with quotes, commas and spaces trimmed. */
  ghost predicate PropertiesOf(t: string, props: seq<string>) {
    exists i :: OccursAt(t, "=>", i) && (forall k :: 0 <= k < i ==> !OccursAt(t, "=>", k))
                && props == SplitWhitespace(TrimMatches(t[i + 2..], Quoting))
  }

  /** The properties after the first `=>` of the trimmed line, or None when it has none. */
  function AfterArrow(t: string): (r: Option<seq<string>>)
    ensures r.None? <==> !Contains(t, "=>")
    ensures r.Some? ==> PropertiesOf(t, r.value)
  {
    match Find(t, "=>", 0)
    case None => None
    case Some(i) =>
      assert OccursAt(t, "=>", i);
      Some(SplitWhitespace(TrimMatches(t[i + 2..], Quoting)))
  }

  /** What the last property with this prefix sets its field to; a field no property sets stays empty. */
  function ValueOf(props: seq<string>, prefix: string): (r: string)
    ensures r != "" ==> exists k :: 0 <= k < |props| && IsPrefix(prefix, props[k]) && r == props[k][|prefix|..]
    decreases |props|
  {
    if props == [] then ""
    else
      var last := props[|props| - 1];
      if IsPrefix(prefix, last) then last[|prefix|..]
      else
        var init := props[..|props| - 1];
        assert forall k :: 0 <= k < |init| ==> init[k] == props[k];
        ValueOf(init, prefix)
  }

  function CredentialsOf(props: seq<string>): Credentials {
    Credentials(ValueOf(props, "dbname="), ValueOf(props, "user="), ValueOf(props, "password="))
  }

  /** No property starts with two of the three prefixes, so the order of the tests does not matter. */
  lemma PrefixesExclusive(p: string)
    ensures !(IsPrefix("dbname=", p) && IsPrefix("user=", p))
    ensures !(IsPrefix("dbname=", p) && IsPrefix("password=", p))
    ensures !(IsPrefix("user=", p) && IsPrefix("password=", p))
  {
    if IsPrefix("dbname=", p) {
      assert p[0] == "dbname="[0];
    }
    if IsPrefix("user=", p) {
      assert p[0] == "user="[0];
    }
  }

  /** The loop over the properties: each one with a known prefix sets its field to the rest of it. */
  method ReadProperties(props: seq<string>) returns (result: Credentials)
    ensures result == CredentialsOf(props)
  {
    result := Credentials("", "", "");
    for k := 0 to |props|
      invariant result == CredentialsOf(props[..k])
    {
      var property := props[k];
      assert props[..k + 1][..k] == props[..k] && props[..k + 1][k] == property;
      PrefixesExclusive(property);
      if IsPrefix("dbname=", property) {
        result := result.(database := property[7..]);
      } else if IsPrefix("user=", property) {
        result := result.(username := property[5..]);
      } else if IsPrefix("password=", property) {
        result := result.(password := property[9..]);
      }
    }
    assert props[..|props|] == props;
  }

  /**
   * `load_credentials`, on the text of the connection-string file; None
   * stands for a panic.
   */
  method LoadCredentials(file: string) returns (r: Option<Credentials>)
    ensures r.None? <==> ConnectionProperties(file).None?
    ensures r.Some? ==> r.value == CredentialsOf(ConnectionProperties(file).value)
  {
    match ConnectionProperties(file) {
      case None => r := None;
      case Some(props) =>
        var c := ReadProperties(props);
        r := Some(c);
    }
  }

  /** A later property overrides an earlier one: the field is the rest of the last property with its prefix. */
  lemma {:induction false} LastPropertyWins(props: seq<string>, prefix: string, j: nat)
    requires j < |props| && IsPrefix(prefix, props[j])
    requires forall k :: j < k < |props| ==> !IsPrefix(prefix, props[k])
    ensures ValueOf(props, prefix) == props[j][|prefix|..]
    decreases |props|
  {
    if j < |props| - 1 {
      var init := props[..|props| - 1];
      assert forall k :: j < k < |init| ==> init[k] == props[k];
      LastPropertyWins(init, prefix, j);
    }
  }

  /** A field that no property sets stays empty. */
  lemma {:induction false} MissingPropertyEmpty(props: seq<string>, prefix: string)
    requires forall k :: 0 <= k < |props| ==> !IsPrefix(prefix, props[k])
    ensures ValueOf(props, prefix) == ""
    decreases |props|
  {
    if props != [] {
      var init := props[..|props| - 1];
      assert forall k :: 0 <= k < |init| ==> init[k] == props[k];
      MissingPropertyEmpty(init, prefix);
    }
  }

  /** The properties of a typical connection string give its database, user and password; the host is ignored. */
  lemma TypicalProperties(props: seq<string>)
    requires props == ["host=localhost", "dbname=games", "user=admin", "password=secret"]
    ensures CredentialsOf(props) == Credentials("games", "admin", "secret")
  {
    assert IsPrefix("dbname=", props[1]) && IsPrefix("user=", props[2]) && IsPrefix("password=", props[3]);
    assert props[2][0] != 'd' && props[3][0] != 'd' && props[3][0] != 'u';
    LastPropertyWins(props, "dbname=", 1);
    LastPropertyWins(props, "user=", 2);
    LastPropertyWins(props, "password=", 3);
  }
}
