/**
 ICE candidate lines (section 15.1 of RFC 5245): printing a candidate, splitting the line and
 reading it back.
 */
module Candidate {
  import opened Numbers
  import opened Serial

  datatype HostType = Host | Srflx | Prflx | Relay
  datatype Media = Video | Audio | Other

  type int32 = x: int | -0x8000_0000 <= x < 0x8000_0000

  /** The fields of `CandidateInfo` that are printed or read. */
  datatype CandidateInfo = CandidateInfo(foundation: string, componentId: uint32, netProtocol: string, priority: uint32,
                                         hostAddress: string, hostPort: int32, hostType: HostType,
                                         rAddress: string, rPort: int32, media: Media, sdp: string)

  // ---------------------------------------------------------------- splitting

  /** `find_first_of`: where the first delimiter is, or the length. */
  function FindFirstOf(s: string, delims: string, i: nat := 0): (p: nat)
    requires i <= |s|
    ensures i <= p <= |s|
    ensures forall j :: i <= j < p ==> s[j] !in delims
    ensures p < |s| ==> s[p] in delims
    decreases |s| - i
  {
    if i == |s| || s[i] in delims then i else FindFirstOf(s, delims, i + 1)
  }

  /** `splitOneOf` when `splits` splits have been made already. */
  function Split(s: string, delims: string, maxSplits: nat, splits: nat): seq<string>
    decreases |s|
  {
    var pos := FindFirstOf(s, delims);
    if (maxSplits == 0 || splits < maxSplits) && pos < |s|
    then [s[..pos]] + Split(s[pos + 1..], delims, maxSplits, splits + 1)
    else if s != "" then [s] else []
  }

  method SplitOneOf(str: string, delims: string, maxSplits: nat) returns (result: seq<string>)
    ensures result == Split(str, delims, maxSplits, 0)
  {
    var remaining, splits := str, 0;
    result := [];
    var pos := FindFirstOf(remaining, delims);
    while (maxSplits == 0 || splits < maxSplits) && pos < |remaining|
      invariant pos == FindFirstOf(remaining, delims)
      invariant result + Split(remaining, delims, maxSplits, splits) == Split(str, delims, maxSplits, 0)
      decreases |remaining|
    {
      MoveBracket(result, remaining[..pos], Split(remaining[pos + 1..], delims, maxSplits, splits + 1));
      result := result + [remaining[..pos]];
      remaining := remaining[pos + 1..];
      splits := splits + 1;
      pos := FindFirstOf(remaining, delims);
    }
    if |remaining| > 0 {
      result := result + [remaining];
    }
  }

  predicate Clean(s: string, delims: string) {
    forall i :: 0 <= i < |s| ==> s[i] !in delims
  }

  /** The delimiters at which an unlimited split cuts. */
  function Seams(s: string, delims: string): string
    decreases |s|
  {
    var pos := FindFirstOf(s, delims);
    if pos < |s| then [s[pos]] + Seams(s[pos + 1..], delims) else ""
  }

  /** The words with the delimiters between them; the last word may be missing. */
  function Weave(words: seq<string>, seams: string): string
    requires |seams| <= |words| <= |seams| + 1
  {
    if words == [] then ""
    else if seams == "" then words[0]
    else words[0] + [seams[0]] + Weave(words[1..], seams[1..])
  }

  /** Splitting loses nothing: the pieces contain no delimiter, and with the delimiters between them
      they are the line again. */
  lemma {:induction false} SplitWeaves(s: string, delims: string, splits: nat)
    ensures var ps, ds := Split(s, delims, 0, splits), Seams(s, delims);
            && (forall i :: 0 <= i < |ps| ==> Clean(ps[i], delims))
            && |ds| <= |ps| <= |ds| + 1
            && Weave(ps, ds) == s
    decreases |s|
  {
    hide FindFirstOf, Clean, Weave;
    var pos := FindFirstOf(s, delims);
    if pos < |s| {
      var rest := s[pos + 1..];
      SplitWeaves(rest, delims, splits + 1);
      CleanFront(s, delims);
      WeaveCons(s[..pos], s[pos], Split(rest, delims, 0, splits + 1), Seams(rest, delims));
      assert s[..pos] + [s[pos]] + rest == s;
    } else {
      CleanFront(s, delims);
      WeaveOne(s);
    }
  }

  lemma CleanFront(s: string, delims: string)
    ensures Clean(s[..FindFirstOf(s, delims)], delims)
    ensures FindFirstOf(s, delims) == |s| ==> Clean(s, delims)
  {
    hide FindFirstOf;
  }

  lemma WeaveCons(word: string, d: char, words: seq<string>, seams: string)
    requires |seams| <= |words| <= |seams| + 1
    ensures Weave([word] + words, [d] + seams) == word + [d] + Weave(words, seams)
  {
    assert ([word] + words)[1..] == words && ([d] + seams)[1..] == seams;
  }

  lemma WeaveOne(s: string)
    ensures Weave(if s != "" then [s] else [], "") == s
  {
  }

  /** With a limit, the line is cut at that many delimiters, or at all if there are fewer: the pieces up to
      there contain none, and with those delimiters between them they are the line. */
  lemma {:induction false} LimitedWeaves(s: string, delims: string, max: nat, splits: nat)
    requires 0 < max && splits <= max
    ensures var ps, cuts := Split(s, delims, max, splits), Min(max - splits, |Seams(s, delims)|);
            && cuts <= |ps| <= cuts + 1
            && (forall i :: 0 <= i < cuts ==> Clean(ps[i], delims))
            && Weave(ps, Seams(s, delims)[..cuts]) == s
    decreases |s|
  {
    hide FindFirstOf, Clean, Weave;
    var pos := FindFirstOf(s, delims);
    if splits < max && pos < |s| {
      var rest := s[pos + 1..];
      LimitedWeaves(rest, delims, max, splits + 1);
      CleanFront(s, delims);
      var cuts := Min(max - splits - 1, |Seams(rest, delims)|);
      WeaveCons(s[..pos], s[pos], Split(rest, delims, max, splits + 1), Seams(rest, delims)[..cuts]);
      assert [s[pos]] + Seams(rest, delims)[..cuts] == Seams(s, delims)[..cuts + 1];
      assert s[..pos] + [s[pos]] + rest == s;
    } else {
      WeaveOne(s);
    }
  }

  /** And it undoes weaving, for words without delimiters of which the last is not empty. */
  lemma {:induction false} WeaveSplits(words: seq<string>, seams: string, delims: string, splits: nat)
    requires |words| == |seams| + 1 && words[|seams|] != ""
    requires forall i :: 0 <= i < |words| ==> Clean(words[i], delims)
    requires forall i :: 0 <= i < |seams| ==> seams[i] in delims
    ensures Split(Weave(words, seams), delims, 0, splits) == words
    decreases |seams|
  {
    if seams != "" {
      var rest := Weave(words[1..], seams[1..]);
      WeaveSplits(words[1..], seams[1..], delims, splits + 1);
      SplitWord(words[0], seams[0], rest, delims, splits);
    }
  }

  lemma SplitWord(word: string, d: char, rest: string, delims: string, splits: nat)
    requires Clean(word, delims) && d in delims
    ensures Split(word + [d] + rest, delims, 0, splits) == [word] + Split(rest, delims, 0, splits + 1)
  {
    var s := word + [d] + rest;
    var pos := FindFirstOf(s, delims);
    assert s[|word|] == d;
    assert forall j :: 0 <= j < |word| ==> s[j] == word[j];
    assert pos == |word|;
    assert s[..pos] == word && s[pos + 1..] == rest;
  }

  lemma {:induction false} WeaveAppends(words: seq<string>, seams: string, word: string, d: char)
    requires |words| == |seams| + 1
    ensures Weave(words + [word], seams + [d]) == Weave(words, seams) + [d] + word
    decreases |seams|
  {
    var ws, ds := words + [word], seams + [d];
    if seams == "" {
      assert ws[1..] == [word] && ds[1..] == "";
    } else {
      WeaveAppends(words[1..], seams[1..], word, d);
      assert ws[1..] == words[1..] + [word] && ds[1..] == seams[1..] + [d];
      Regroup(words[0] + [seams[0]], Weave(words[1..], seams[1..]), [d], word);
    }
  }

  lemma Regroup(a: string, b: string, c: string, d: string)
    ensures a + (b + c + d) == (a + b) + c + d
  {
  }

  // ---------------------------------------------------------------- numbers

  function Digit(d: nat): char
    requires d < 10
  {
    "0123456789"[d]
  }

  predicate IsDigit(c: char) { '0' <= c <= '9' }

  function DigitValue(c: char): nat
    requires IsDigit(c)
  {
    c as int - '0' as int
  }

  /** A number as an output stream prints it. */
  function Dec(n: nat): (s: string)
    ensures s != "" && forall i :: 0 <= i < |s| ==> IsDigit(s[i])
  {
    if n < 10 then [Digit(n)] else Dec(n / 10) + [Digit(n % 10)]
  }

  function Print(n: int): string {
    if n < 0 then "-" + Dec(-n) else Dec(n)
  }

  predicate IsSpace(c: char) {
    c == ' ' || '\t' <= c <= '\r'
  }

  function SkipSpaces(s: string): string {
    if s != "" && IsSpace(s[0]) then SkipSpaces(s[1..]) else s
  }

  /** How many digits stand at the front. */
  function Leading(s: string, i: nat := 0): (n: nat)
    requires i <= |s|
    requires forall j :: 0 <= j < i ==> IsDigit(s[j])
    ensures i <= n <= |s|
    ensures forall j :: 0 <= j < n ==> IsDigit(s[j])
    ensures n < |s| ==> !IsDigit(s[n])
    decreases |s| - i
  {
    if i < |s| && IsDigit(s[i]) then Leading(s, i + 1) else i
  }

  /** The number that the first `n` digits are. */
  function Number(s: string, n: nat): nat
    requires n <= |s| && forall j :: 0 <= j < n ==> IsDigit(s[j])
  {
    if n == 0 then 0 else 10 * Number(s, n - 1) + DigitValue(s[n - 1])
  }

  /** `strtoul` in base 10: blanks, a sign, digits; the largest value if the number is too large. */
  function Strtoul(s: string): uint64 {
    var t := SkipSpaces(s);
    var signed := t != "" && (t[0] == '-' || t[0] == '+');
    var digits := if signed then t[1..] else t;
    var v: int := Number(digits, Leading(digits));
    if v > 0xFFFF_FFFF_FFFF_FFFF then 0xFFFF_FFFF_FFFF_FFFF else if signed && t[0] == '-' then U64(-v) else v
  }

  lemma {:induction false} NumberPrefix(s: string, t: string, n: nat)
    requires n <= |s| && forall j :: 0 <= j < n ==> IsDigit(s[j])
    ensures Number(s + t, n) == Number(s, n)
  {
    if n > 0 {
      NumberPrefix(s, t, n - 1);
    }
  }

  lemma {:induction false} NumberOfDec(n: nat)
    ensures Number(Dec(n), |Dec(n)|) == n && Leading(Dec(n)) == |Dec(n)|
  {
    if n < 10 {
      assert Number(Dec(n), 1) == 10 * Number(Dec(n), 0) + DigitValue(Digit(n));
    } else {
      NumberOfDec(n / 10);
      NumberPrefix(Dec(n / 10), [Digit(n % 10)], |Dec(n / 10)|);
    }
  }

  /** Reading a printed number, also a negative one, gives it back modulo 2^64. */
  lemma StrtoulPrint(n: int)
    requires -0x8000_0000_0000_0000 <= n <= 0xFFFF_FFFF_FFFF_FFFF
    ensures Strtoul(Print(n)) == U64(n)
  {
    hide Dec, Number, Leading, U64;
    if n < 0 {
      NumberOfDec(-n);
      StrtoulOf("-", Dec(-n));
      MinusCut(n);
    } else {
      NumberOfDec(n);
      assert "" + Dec(n) == Dec(n);
      StrtoulOf("", Dec(n));
      MinusCut(n);
    }
  }

  lemma MinusCut(n: int)
    requires -0x8000_0000_0000_0000 <= n <= 0xFFFF_FFFF_FFFF_FFFF
    ensures n >= 0 ==> U64(n) == n
    ensures n < 0 ==> -n <= 0xFFFF_FFFF_FFFF_FFFF
  {
  }

  lemma StrtoulOf(sign: string, digits: string)
    requires sign == "" || sign == "-"
    requires digits != "" && (forall i :: 0 <= i < |digits| ==> IsDigit(digits[i])) && Leading(digits) == |digits|
    ensures var v: int := Number(digits, |digits|);
            Strtoul(sign + digits) == if v > 0xFFFF_FFFF_FFFF_FFFF then 0xFFFF_FFFF_FFFF_FFFF
                                      else if sign == "-" then U64(-v) else v
  {
    hide Number, Leading, U64;
    var s := sign + digits;
    if sign == "-" {
      assert s[0] == '-' && s[1..] == digits;
    } else {
      assert s == digits;
    }
    assert SkipSpaces(s) == s;
  }

  /** What `strtoul` skips: the blank, and the control characters from 9 to 13. */
  predicate Blank(c: char) {
    c as int == 32 || 9 <= c as int <= 13
  }

  lemma {:induction false} SkipsAll(blanks: string, s: string)
    requires forall i :: 0 <= i < |blanks| ==> Blank(blanks[i])
    requires s != "" ==> !Blank(s[0])
    ensures SkipSpaces(blanks + s) == s
  {
    if blanks == "" {
      assert blanks + s == s;
    } else {
      SkipsAll(blanks[1..], s);
      assert (blanks + s)[1..] == blanks[1..] + s;
    }
  }

  lemma LeadingIs(digits: string, rest: string)
    requires forall i :: 0 <= i < |digits| ==> IsDigit(digits[i])
    requires rest != "" ==> !IsDigit(rest[0])
    ensures Leading(digits + rest) == |digits|
  {
    var s := digits + rest;
    if rest != "" {
      assert s[|digits|] == rest[0];
    }
    assert s[..|digits|] == digits;
    forall i | 0 <= i < |digits| ensures IsDigit(s[i]) {
      assert s[i] == digits[i];
    }
    hide Leading;
    var n := Leading(s);
  }

  /** `strtoul` on any numeral: blanks in front are skipped, one sign may follow, the number ends at the first
      character that is no digit, a minus negates modulo 2^64, and a number that is too large gives the
      largest one. */
  lemma StrtoulReads(blanks: string, sign: string, n: nat, rest: string)
    requires forall i :: 0 <= i < |blanks| ==> Blank(blanks[i])
    requires sign == "" || sign == "+" || sign == "-"
    requires rest != "" ==> !IsDigit(rest[0])
    ensures Strtoul(blanks + (sign + (Dec(n) + rest)))
         == if n > 0xFFFF_FFFF_FFFF_FFFF then 0xFFFF_FFFF_FFFF_FFFF else if sign == "-" then U64(0 - n) else n
  {
    NumeralIs(n, rest);
    StrtoulSigned(blanks, sign, Dec(n) + rest);
  }

  lemma NumeralIs(n: nat, rest: string)
    requires rest != "" ==> !IsDigit(rest[0])
    ensures var t := Dec(n) + rest;
            t != "" && IsDigit(t[0]) && Number(t, Leading(t)) == n
  {
    NumberOfDec(n);
    NumberPrefix(Dec(n), rest, |Dec(n)|);
    LeadingIs(Dec(n), rest);
  }

  lemma StrtoulSigned(blanks: string, sign: string, t: string)
    requires forall i :: 0 <= i < |blanks| ==> Blank(blanks[i])
    requires sign == "" || sign == "+" || sign == "-"
    requires t != "" && IsDigit(t[0])
    ensures var v: int := Number(t, Leading(t));
            Strtoul(blanks + (sign + t)) == if v > 0xFFFF_FFFF_FFFF_FFFF then 0xFFFF_FFFF_FFFF_FFFF
                                            else if sign == "-" then U64(-v) else v
  {
    hide Number, Leading, U64, SkipSpaces, Blank;
    SignedNumeral(sign, t);
    SkipsAll(blanks, sign + t);
  }

  lemma SignedNumeral(sign: string, t: string)
    requires sign == "" || sign == "+" || sign == "-"
    requires t != "" && IsDigit(t[0])
    ensures var u := sign + t;
            var signed := u[0] == '-' || u[0] == '+';
            && !Blank(u[0]) && (signed <==> sign != "") && (u[0] == '-' <==> sign == "-")
            && t == if signed then u[1..] else u
  {
    if sign == "" {
      assert sign + t == t;
    } else {
      assert (sign + t)[1..] == t;
    }
  }

  /** Text that does not start with a numeral gives 0. */
  lemma StrtoulNone(blanks: string, rest: string)
    requires forall i :: 0 <= i < |blanks| ==> Blank(blanks[i])
    requires rest != "" ==> !Blank(rest[0]) && !IsDigit(rest[0]) && rest[0] != '+' && rest[0] != '-'
    ensures Strtoul(blanks + rest) == 0
  {
    SkipsAll(blanks, rest);
    LeadingIs("", rest);
    assert "" + rest == rest;
    assert Number(rest, 0) == 0;
  }

  /** The two conversions of the parser. */
  function ReadUnsigned(s: string): uint32 { U32(Strtoul(s)) }
  function ReadPort(s: string): int32 { I32(Strtoul(s)) }

  lemma ReadBack(u: uint32, p: int32)
    ensures ReadUnsigned(Print(u)) == u && ReadPort(Print(p)) == p
  {
    StrtoulPrint(u);
    StrtoulPrint(p);
    hide Strtoul, Print;
    CutTwice(u, p);
  }

  lemma CutTwice(u: uint32, p: int32)
    ensures U32(U64(u)) == u && I32(U64(p)) == p
  {
  }

  lemma PrintClean(n: int)
    ensures Clean(Print(n), " :") && Print(n) != ""
  {
  }

  // ---------------------------------------------------------------- printing

  const DELIMS := " :"

  function TypeName(t: HostType): string {
    match t
    case Host => "host"
    case Srflx => "srflx"
    case Prflx => "prflx"
    case Relay => "relay"
  }

  /** Candidates that carry a related address. */
  predicate Related(t: HostType) {
    t == Srflx || t == Relay
  }

  function Front(c: CandidateInfo): (ws: seq<string>)
    ensures |ws| == 9
  {
    ["a=candidate", c.foundation, Print(c.componentId), c.netProtocol, Print(c.priority), c.hostAddress,
     Print(c.hostPort), "typ", TypeName(c.hostType)]
  }

  function Middle(c: CandidateInfo): seq<string> {
    if Related(c.hostType) then ["raddr", c.rAddress, "rport", Print(c.rPort)] else []
  }

  /** The words of a candidate line. */
  function Words(c: CandidateInfo): seq<string> {
    Front(c) + Middle(c) + ["generation", "0"]
  }

  /** A colon after the first word, and blanks after the others. */
  function Blanks(n: nat): (b: string)
    ensures |b| == n
  {
    seq(n, i => if i == 0 then ':' else ' ')
  }

  /** The line of a candidate. */
  function Line(c: CandidateInfo): string {
    Weave(Words(c), Blanks(|Words(c)| - 1))
  }

  /** The output stream: one more word after a blank. */
  method AppendWord(sdp: string, word: string, ghost words: seq<string>) returns (out: string)
    requires words != [] && sdp == Weave(words, Blanks(|words| - 1)) && |words| > 1
    ensures out == Weave(words + [word], Blanks(|words|))
  {
    hide Weave;
    WeaveAppends(words, Blanks(|words| - 1), word, ' ');
    assert Blanks(|words|) == Blanks(|words| - 1) + [' '];
    out := sdp + " " + word;
  }

  /** The part of the line that every candidate has. */
  method StringifyFront(c: CandidateInfo) returns (sdp: string)
    ensures sdp == Weave(Front(c), Blanks(|Front(c)| - 1))
  {
    hide Weave, Print, Blanks, TypeName;
    sdp := "a=candidate:" + c.foundation;
    FirstWords(c.foundation);
    ghost var w := ["a=candidate", c.foundation];
    sdp := AppendWord(sdp, Print(c.componentId), w);
    w := w + [Print(c.componentId)];
    sdp := AppendWord(sdp, c.netProtocol, w);
    w := w + [c.netProtocol];
    sdp := AppendWord(sdp, Print(c.priority), w);
    w := w + [Print(c.priority)];
    sdp := AppendWord(sdp, c.hostAddress, w);
    w := w + [c.hostAddress];
    sdp := AppendWord(sdp, Print(c.hostPort), w);
    w := w + [Print(c.hostPort)];
    sdp := AppendWord(sdp, "typ", w);
    w := w + ["typ"];
    sdp := AppendWord(sdp, TypeName(c.hostType), w);
    w := w + [TypeName(c.hostType)];
    assert w == Front(c);
  }

  /** `stringifyCandidate` */
  method StringifyCandidate(c: CandidateInfo) returns (sdp: string)
    ensures sdp == Line(c)
  {
    hide Weave, Print, Blanks, Front;
    sdp := StringifyFront(c);
    ghost var words := Front(c);
    if c.hostType == Srflx || c.hostType == Relay {
      sdp := AppendWord(sdp, "raddr", words);
      sdp := AppendWord(sdp, c.rAddress, words + ["raddr"]);
      sdp := AppendWord(sdp, "rport", words + ["raddr"] + [c.rAddress]);
      sdp := AppendWord(sdp, Print(c.rPort), words + ["raddr"] + [c.rAddress] + ["rport"]);
      words := words + ["raddr"] + [c.rAddress] + ["rport"] + [Print(c.rPort)];
    }
    assert words == Front(c) + Middle(c);
    sdp := AppendWord(sdp, "generation", words);
    sdp := AppendWord(sdp, "0", words + ["generation"]);
    assert words + ["generation"] + ["0"] == Words(c);
  }

  lemma FirstWords(foundation: string)
    ensures Weave(["a=candidate", foundation], Blanks(1)) == "a=candidate:" + foundation
  {
    assert Weave([foundation], "") == foundation;
    assert ["a=candidate", foundation][1..] == [foundation] && Blanks(1) == ":" && Blanks(1)[1..] == "";
    assert "a=candidate" + ":" == "a=candidate:";
  }

  /** The words, each after a blank. */
  function Spaced(words: seq<string>): string {
    if words == [] then "" else " " + words[0] + Spaced(words[1..])
  }

  lemma {:induction false} SpacedSnoc(words: seq<string>, word: string)
    ensures Spaced(words + [word]) == Spaced(words) + (" " + word)
  {
    if words == [] {
      assert [word][1..] == [];
      assert " " + word + "" == "" + (" " + word);
    } else {
      SpacedSnoc(words[1..], word);
      assert (words + [word])[1..] == words[1..] + [word];
      assert " " + words[0] + (Spaced(words[1..]) + (" " + word)) == " " + words[0] + Spaced(words[1..]) + (" " + word);
    }
  }

  lemma {:induction false} WeaveSpaced(first: string, second: string, words: seq<string>, n: nat)
    requires n <= |words|
    ensures Weave([first, second] + words[..n], Blanks(n + 1)) == first + ":" + second + Spaced(words[..n])
  {
    hide Weave, Blanks;
    if n == 0 {
      WeaveTwo(first, second);
      assert [first, second] + words[..0] == [first, second];
    } else {
      WeaveSpaced(first, second, words, n - 1);
      var before := words[..n - 1];
      assert words[..n] == before + [words[n - 1]];
      assert ([first, second] + before) + [words[n - 1]] == [first, second] + words[..n];
      WeaveAppends([first, second] + before, Blanks(n), words[n - 1], ' ');
      BlanksSnoc(n);
      SpacedSnoc(before, words[n - 1]);
      assert first + ":" + second + Spaced(before) + [' '] + words[n - 1]
          == first + ":" + second + (Spaced(before) + (" " + words[n - 1]));
    }
  }

  lemma BlanksSnoc(n: nat)
    requires n > 0
    ensures Blanks(n + 1) == Blanks(n) + [' ']
  {
  }

  lemma WeaveTwo(first: string, second: string)
    ensures Weave([first, second], Blanks(1)) == first + ":" + second + Spaced([])
  {
    assert Weave([second], "") == second;
    assert [first, second][1..] == [second] && Blanks(1) == ":" && Blanks(1)[1..] == "";
    assert first + ":" + second + "" == first + ":" + second;
  }

  /** The parts written to an output stream one after the other. */
  function Concat(parts: seq<string>): string {
    if parts == [] then "" else parts[0] + Concat(parts[1..])
  }

  lemma ConcatCons(part: string, parts: seq<string>)
    ensures Concat([part] + parts) == part + Concat(parts)
  {
    assert ([part] + parts)[1..] == parts;
  }

  /** A word is a blank, the word, and what follows. */
  lemma SpacedPart(word: string, words: seq<string>, parts: seq<string>)
    requires Spaced(words) == Concat(parts)
    ensures Spaced([word] + words) == Concat([" ", word] + parts)
  {
    assert ([word] + words)[1..] == words;
    ConcatCons(word, parts);
    ConcatCons(" ", [word] + parts);
    assert [" ", word] + parts == [" "] + ([word] + parts);
    hide Spaced, Concat;
    assert " " + word + Concat(parts) == " " + (word + Concat(parts));
  }

  /** A fixed word between two others is written with its blanks. */
  lemma SpacedLabel(tag: string, word: string, words: seq<string>, parts: seq<string>)
    requires Spaced(words) == Concat(parts)
    ensures Spaced([tag] + ([word] + words)) == Concat([" " + tag + " ", word] + parts)
  {
    SpacedPart(word, words, parts);
    var text := Concat([word] + parts);
    ConcatCons(word, parts);
    ConcatCons(" ", [word] + parts);
    ConcatCons(" " + tag + " ", [word] + parts);
    assert [" ", word] + parts == [" "] + ([word] + parts);
    assert [" " + tag + " ", word] + parts == [" " + tag + " "] + ([word] + parts);
    assert ([tag] + ([word] + words))[1..] == [word] + words;
    hide Concat;
    assert " " + tag + (" " + text) == " " + tag + " " + text;
  }

  /** The parts after the host port. */
  function LastParts(c: CandidateInfo): seq<string> {
    match c.hostType
    case Host => [" typ ", "host", " generation 0"]
    case Prflx => [" typ ", "prflx", " generation 0"]
    case Srflx => [" typ ", "srflx", " raddr ", c.rAddress, " rport ", Print(c.rPort), " generation 0"]
    case Relay => [" typ ", "relay", " raddr ", c.rAddress, " rport ", Print(c.rPort), " generation 0"]
  }

  /** The text of a line in full: the type is written out, and the related address stands there exactly for
      server reflexive and relayed candidates (section 15.1 of RFC 5245). */
  lemma LineText(c: CandidateInfo)
    ensures Line(c) == Concat(["a=candidate:", c.foundation, " ", Print(c.componentId), " ", c.netProtocol,
                               " ", Print(c.priority), " ", c.hostAddress, " ", Print(c.hostPort)] + LastParts(c))
  {
    hide Weave, Print, Blanks, Spaced, Concat, LastParts, Middle;
    var rest := ["typ", TypeName(c.hostType)] + (Middle(c) + ["generation", "0"]);
    SpacedLast(c);
    var w0 := [Print(c.hostPort)] + rest;
    var w1 := [c.hostAddress] + w0;
    var w2 := [Print(c.priority)] + w1;
    var w3 := [c.netProtocol] + w2;
    var w4 := [Print(c.componentId)] + w3;
    SpacedPart(Print(c.hostPort), rest, LastParts(c));
    var p0 := [" ", Print(c.hostPort)] + LastParts(c);
    SpacedPart(c.hostAddress, w0, p0);
    var p1 := [" ", c.hostAddress] + p0;
    SpacedPart(Print(c.priority), w1, p1);
    var p2 := [" ", Print(c.priority)] + p1;
    SpacedPart(c.netProtocol, w2, p2);
    var p3 := [" ", c.netProtocol] + p2;
    SpacedPart(Print(c.componentId), w3, p3);
    var p4 := [" ", Print(c.componentId)] + p3;
    assert Words(c) == ["a=candidate", c.foundation] + w4;
    LineSpaced(c, w4);
    LineStarts(c.foundation, p4);
    assert ["a=candidate:", c.foundation] + p4
        == ["a=candidate:", c.foundation, " ", Print(c.componentId), " ", c.netProtocol,
            " ", Print(c.priority), " ", c.hostAddress, " ", Print(c.hostPort)] + LastParts(c);
  }

  lemma LineSpaced(c: CandidateInfo, words: seq<string>)
    requires Words(c) == ["a=candidate", c.foundation] + words
    ensures Line(c) == "a=candidate" + ":" + c.foundation + Spaced(words)
  {
    hide Weave, Blanks, Words;
    WeaveSpaced("a=candidate", c.foundation, words, |words|);
    assert words[..|words|] == words;
  }

  lemma LineStarts(foundation: string, parts: seq<string>)
    ensures Concat(["a=candidate:", foundation] + parts) == "a=candidate" + ":" + foundation + Concat(parts)
  {
    ConcatCons(foundation, parts);
    ConcatCons("a=candidate:", [foundation] + parts);
    assert ["a=candidate:", foundation] + parts == ["a=candidate:"] + ([foundation] + parts);
    hide Concat;
    assert "a=candidate:" + (foundation + Concat(parts)) == "a=candidate" + ":" + foundation + Concat(parts);
  }

  lemma SpacedLast(c: CandidateInfo)
    ensures Spaced(["typ", TypeName(c.hostType)] + (Middle(c) + ["generation", "0"])) == Concat(LastParts(c))
  {
    hide Print, Spaced, Concat;
    var tail := ["generation", "0"];
    SpacedEnd();
    assert " " + "rport" + " " == " rport " && " " + "raddr" + " " == " raddr " && " " + "typ" + " " == " typ ";
    if Related(c.hostType) {
      SpacedLabel("rport", Print(c.rPort), tail, [" generation 0"]);
      var port := ["rport"] + ([Print(c.rPort)] + tail);
      SpacedLabel("raddr", c.rAddress, port, [" rport ", Print(c.rPort)] + [" generation 0"]);
      assert Middle(c) + tail == ["raddr"] + ([c.rAddress] + port);
      SpacedLabel("typ", TypeName(c.hostType), Middle(c) + tail,
                  [" raddr ", c.rAddress] + ([" rport ", Print(c.rPort)] + [" generation 0"]));
    } else {
      assert Middle(c) + tail == tail;
      SpacedLabel("typ", TypeName(c.hostType), tail, [" generation 0"]);
    }
    assert ["typ", TypeName(c.hostType)] + (Middle(c) + tail)
        == ["typ"] + ([TypeName(c.hostType)] + (Middle(c) + tail));
    LastAre(c);
  }

  lemma LastAre(c: CandidateInfo)
    ensures LastParts(c) == [" typ ", TypeName(c.hostType)]
                            + (if Related(c.hostType)
                               then [" raddr ", c.rAddress] + ([" rport ", Print(c.rPort)] + [" generation 0"])
                               else [" generation 0"])
  {
    hide Print;
  }

  lemma SpacedEnd()
    ensures Spaced(["generation", "0"]) == Concat([" generation 0"])
  {
    assert ["generation", "0"][1..] == ["0"];
    assert Spaced(["0"]) == " " + "0" + "";
    assert " " + "generation" + (" " + "0" + "") == " generation 0" + "";
  }

  // ---------------------------------------------------------------- reading

  function ReadType(s: string): HostType {
    if s == "srflx" then Srflx else if s == "prflx" then Prflx else if s == "relay" then Relay else Host
  }

  predicate Udp(protocol: string) {
    protocol == "UDP" || protocol == "udp"
  }

  /** The pieces that the parser looks at are there. */
  predicate Enough(ps: seq<string>) {
    && |ps| > 3
    && (Udp(ps[3]) ==>
          && |ps| > 7
          && (ps[7] == "typ" ==> |ps| > 8 && (Related(ReadType(ps[8])) ==> |ps| > 12)))
  }

  /** `processCandidate`. A related address that is not read is left empty. */
  function Process(ps: seq<string>, media: Media, line: string): Option<CandidateInfo>
    requires Enough(ps)
  {
    if !Udp(ps[3]) || ps[7] != "typ" then None
    else
      var t := ReadType(ps[8]);
      Some(CandidateInfo(ps[1], ReadUnsigned(ps[2]), ps[3], ReadUnsigned(ps[4]), ps[5], ReadPort(ps[6]), t,
                         if Related(t) then ps[10] else "", if Related(t) then ReadPort(ps[12]) else 0, media, line))
  }

  /** A line with enough pieces is refused exactly for another protocol than UDP, or without the word `typ`.
      A type name that is none of the four counts as a host candidate. */
  lemma RefusedExactly(ps: seq<string>, media: Media, line: string)
    requires Enough(ps)
    ensures Process(ps, media, line).None? <==> ps[3] !in {"UDP", "udp"} || ps[7] != "typ"
    ensures Process(ps, media, line).Some? ==>
              var c := Process(ps, media, line).value;
              && c.media == media && c.sdp == line
              && (c.hostType == Srflx <==> ps[8] == "srflx") && (c.hostType == Prflx <==> ps[8] == "prflx")
              && (c.hostType == Relay <==> ps[8] == "relay")
  {
    hide Strtoul;
    assert "srflx"[0] == 's' && "prflx"[0] == 'p' && "relay"[0] == 'r';
  }

  /** The collected candidates. */
  class SdpInfo {
    var candidateVector: seq<CandidateInfo>

    constructor ()
      ensures candidateVector == []
    {
      candidateVector := [];
    }

    method ProcessCandidate(pieces: seq<string>, media: Media, line: string) returns (r: bool)
      requires Enough(pieces)
      modifies this
      ensures var c := Process(pieces, media, line);
              r == c.Some? && candidateVector == old(candidateVector) + if c.Some? then [c.value] else []
    {
      hide Strtoul;
      var cand := CandidateInfo(pieces[1], ReadUnsigned(pieces[2]), pieces[3], 0, "", 0, Host, "", 0, media, "");
      if cand.netProtocol != "UDP" && cand.netProtocol != "udp" {
        return false;
      }
      cand := cand.(priority := ReadUnsigned(pieces[4]), hostAddress := pieces[5], hostPort := ReadPort(pieces[6]));
      if pieces[7] != "typ" {
        return false;
      }
      var t := FindType(pieces[8]);
      cand := cand.(hostType := t);
      if cand.hostType == Srflx || cand.hostType == Relay {
        cand := cand.(rAddress := pieces[10], rPort := ReadPort(pieces[12]));
      }
      cand := cand.(sdp := line);
      candidateVector := candidateVector + [cand];
      return true;
    }

    /** The line of one candidate, as `processSdp` treats it. */
    method ProcessLine(line: string, media: Media) returns (r: bool)
      requires Enough(Split(line, DELIMS, 0, 0))
      modifies this
      ensures var c := Process(Split(line, DELIMS, 0, 0), media, line);
              r == c.Some? && candidateVector == old(candidateVector) + if c.Some? then [c.value] else []
    {
      var pieces := SplitOneOf(line, DELIMS, 0);
      r := ProcessCandidate(pieces, media, line);
    }
  }

  /** The loop over the type names; an unknown name counts as a host candidate. */
  method FindType(s: string) returns (t: HostType)
    ensures t == ReadType(s)
  {
    var names := ["host", "srflx", "prflx", "relay"];
    var kind, p := 1111, 0;
    while p < 4
      invariant 0 <= p <= 4
      invariant kind == 1111 || kind < p
      invariant kind < p ==> s == names[kind]
      invariant kind == 1111 ==> forall q :: 0 <= q < p ==> s != names[q]
    {
      if s == names[p] {
        kind := p;
      }
      p := p + 1;
    }
    assert names[1][0] == 's' && names[2][0] == 'p' && names[3][0] == 'r' && names[0][0] == 'h';
    t := if kind == 1 then Srflx else if kind == 2 then Prflx else if kind == 3 then Relay else Host;
  }

  // ---------------------------------------------------------------- the round trip

  /** The fields that are printed agree. */
  predicate Same(c: CandidateInfo, d: CandidateInfo) {
    && c.foundation == d.foundation && c.componentId == d.componentId && c.netProtocol == d.netProtocol
    && c.priority == d.priority && c.hostAddress == d.hostAddress && c.hostPort == d.hostPort
    && c.hostType == d.hostType
    && (Related(c.hostType) ==> c.rAddress == d.rAddress && c.rPort == d.rPort)
  }

  /** Printing, splitting and reading gives the candidate back. */
  ghost predicate RoundTrips(c: CandidateInfo) {
    var ps := Split(Line(c), DELIMS, 0, 0);
    && Enough(ps)
    && var r := Process(ps, c.media, Line(c));
       r.Some? && Same(c, r.value) && r.value.media == c.media && r.value.sdp == Line(c)
       && (c.hostType == Host || c.hostType == Prflx ==> r.value.rAddress == "")
  }

  predicate Plain(c: CandidateInfo) {
    && c.netProtocol in {"UDP", "udp"} && Clean(c.foundation, DELIMS) && Clean(c.hostAddress, DELIMS)
    && (Related(c.hostType) ==> Clean(c.rAddress, DELIMS))
  }

  /** The round trip succeeds exactly for UDP candidates whose string fields contain neither a blank nor
      a colon. All numbers come back, negative ports too. */
  lemma RoundTripExact(c: CandidateInfo)
    ensures RoundTrips(c) <==> Plain(c)
  {
    if Plain(c) {
      PlainSplits(c);
      PlainReads(c);
    }
    if RoundTrips(c) {
      SplitWeaves(Line(c), DELIMS, 0);
    }
  }

  lemma PlainSplits(c: CandidateInfo)
    requires Plain(c)
    ensures Split(Line(c), DELIMS, 0, 0) == Words(c)
  {
    hide Weave, Split, Print, Blanks;
    WordsClean(c);
    BlanksDelimit(|Words(c)| - 1);
    WeaveSplits(Words(c), Blanks(|Words(c)| - 1), DELIMS, 0);
  }

  lemma BlanksDelimit(n: nat)
    ensures |Blanks(n)| == n && forall i :: 0 <= i < n ==> Blanks(n)[i] in DELIMS
  {
  }

  lemma WordsClean(c: CandidateInfo)
    requires Plain(c)
    ensures forall i :: 0 <= i < |Words(c)| ==> Clean(Words(c)[i], DELIMS)
  {
    PrintClean(c.componentId);
    PrintClean(c.priority);
    PrintClean(c.hostPort);
    PrintClean(c.rPort);
    ConstantsClean(c.hostType);
    hide Print, Clean, TypeName;
    forall i | 0 <= i < |Words(c)| ensures Clean(Words(c)[i], DELIMS) {
      var n := |Middle(c)|;
      assert i < 9 ==> Words(c)[i] == Front(c)[i];
      assert 9 <= i < 9 + n ==> Words(c)[i] == Middle(c)[i - 9];
      assert i >= 9 + n ==> Words(c)[i] == ["generation", "0"][i - 9 - n];
    }
  }

  lemma ConstantsClean(t: HostType)
    ensures Clean("a=candidate", DELIMS) && Clean("typ", DELIMS) && Clean(TypeName(t), DELIMS)
    ensures Clean("raddr", DELIMS) && Clean("rport", DELIMS) && Clean("generation", DELIMS) && Clean("0", DELIMS)
    ensures Clean("udp", DELIMS) && Clean("UDP", DELIMS)
  {
  }

  lemma PlainReads(c: CandidateInfo)
    requires Udp(c.netProtocol)
    ensures Enough(Words(c)) && Process(Words(c), c.media, Line(c)).Some?
    ensures Same(c, Process(Words(c), c.media, Line(c)).value)
  {
    hide Strtoul, Print, Line;
    ReadBack(c.componentId, c.hostPort);
    ReadBack(c.priority, c.rPort);
    assert Words(c)[..9] == Front(c);
    assert forall i :: 0 <= i < 9 ==> Words(c)[i] == Words(c)[..9][i];
    assert Related(c.hostType) ==> Words(c)[10] == Middle(c)[1] && Words(c)[12] == Middle(c)[3];
  }

  /** A candidate with an IPv6 address does not survive. */
  lemma Ipv6IsLost(c: CandidateInfo)
    requires c.hostAddress == "fe80::1"
    ensures !RoundTrips(c)
  {
    RoundTripExact(c);
    assert c.hostAddress[4] == ':';
  }
}
