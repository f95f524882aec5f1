/** The help chat (src/components/ChatWidget.jsx): the canned reply used when the assistant
    does not answer, the clean-up applied to the assistant's reply, and the split of a reply
    into numbered items, bullet items and paragraphs. */
module ChatWidget {
  import opened Text
  import opened Dynamic

  // -----------------------------------------------------------------------------------------
  // `fallbackReply`

  const SignInReply := "Please sign in first. Then open Dashboard to create or join a meeting."
  const CreateReply := "Dashboard -> Create Meeting. Copy generated meeting ID and share with others."
  const JoinReply := "Dashboard -> Enter meeting ID -> Join Meeting. Allow camera/microphone permissions."
  const VideoReply := "Check network stability and ensure all users joined same meeting ID. Rejoin once if needed."
  const ControlsReply := "Mute toggles microphone. Camera toggles video stream visibility."
  const NotesReply := "Use Notes button in meeting room to open notes panel and save notes."
  const RecordReply := "Record is currently UI state; backend recording storage API will be integrated later."
  const DefaultReply := "I can help with login, create/join meeting, controls, and common troubleshooting."

  /** `fallbackReply(input, isAuthenticated)`, on the lower-cased input. */
  function FallbackReply(input: string, isAuthenticated: bool): (reply: string)
    ensures !isAuthenticated ==> reply == SignInReply
  {
    var text := Lower(input);
    if !isAuthenticated then SignInReply
    else if Contains(text, "create") then CreateReply
    else if Contains(text, "join") then JoinReply
    else if Contains(text, "waiting") || Contains(text, "video") then VideoReply
    else if Contains(text, "mute") || Contains(text, "camera") then ControlsReply
    else if Contains(text, "note") then NotesReply
    else if Contains(text, "record") then RecordReply
    else DefaultReply
  }

  /** The topics in the order they are tried: the words that select each and its reply. */
  const Topics: seq<(seq<string>, string)> := [
    (["create"], CreateReply), (["join"], JoinReply), (["waiting", "video"], VideoReply),
    (["mute", "camera"], ControlsReply), (["note"], NotesReply), (["record"], RecordReply)
  ]

  predicate Mentions(text: string, words: seq<string>) {
    exists w | w in words :: Contains(text, w)
  }

  /** The reference reading of a keyword table: the first topic whose words the text mentions
      answers; no topic gives the default. */
  function FirstTopic(text: string, topics: seq<(seq<string>, string)>, default: string): string {
    if topics == [] then default
    else if Mentions(text, topics[0].0) then topics[0].1
    else FirstTopic(text, topics[1..], default)
  }

  lemma FallbackIsFirstTopic(input: string)
    ensures FallbackReply(input, true) == FirstTopic(Lower(input), Topics, DefaultReply)
  {
    var text := Lower(input);
    var t := Topics;
    MentionsOne(text, "create");
    MentionsOne(text, "join");
    MentionsTwo(text, "waiting", "video");
    MentionsTwo(text, "mute", "camera");
    MentionsOne(text, "note");
    MentionsOne(text, "record");
    FirstTopicStep(text, t, 0, DefaultReply);
    FirstTopicStep(text, t, 1, DefaultReply);
    FirstTopicStep(text, t, 2, DefaultReply);
    FirstTopicStep(text, t, 3, DefaultReply);
    FirstTopicStep(text, t, 4, DefaultReply);
    FirstTopicStep(text, t, 5, DefaultReply);
    assert t[0..] == t;
    assert t[6..] == [];
  }

  /** One step of the table: the topic at `i` answers or the rest of the table is tried. */
  lemma FirstTopicStep(text: string, topics: seq<(seq<string>, string)>, i: nat, default: string)
    requires i < |topics|
    ensures FirstTopic(text, topics[i..], default)
            == if Mentions(text, topics[i].0) then topics[i].1 else FirstTopic(text, topics[i + 1..], default)
  {
    assert topics[i..][1..] == topics[i + 1..];
  }

  lemma MentionsOne(text: string, w: string)
    ensures Mentions(text, [w]) <==> Contains(text, w)
  {
    if Contains(text, w) { assert w in [w]; }
  }

  lemma MentionsTwo(text: string, w1: string, w2: string)
    ensures Mentions(text, [w1, w2]) <==> Contains(text, w1) || Contains(text, w2)
  {
    if Contains(text, w1) { assert w1 in [w1, w2]; }
    if Contains(text, w2) { assert w2 in [w1, w2]; }
  }

  /** Topic `j` answers exactly when the text mentions one of its words and none of the words of
      an earlier topic; a text that mentions no word gets the default. */
  lemma {:induction false} FirstTopicPicks(text: string, topics: seq<(seq<string>, string)>, default: string, j: nat)
    requires j < |topics| && Mentions(text, topics[j].0)
    requires forall k | 0 <= k < j :: !Mentions(text, topics[k].0)
    ensures FirstTopic(text, topics, default) == topics[j].1
  {
    if j > 0 {
      assert !Mentions(text, topics[0].0);
      assert forall k | 0 <= k < j - 1 :: topics[1..][k] == topics[k + 1];
      FirstTopicPicks(text, topics[1..], default, j - 1);
    }
  }

  lemma {:induction false} FirstTopicDefault(text: string, topics: seq<(seq<string>, string)>, default: string)
    requires forall k | 0 <= k < |topics| :: !Mentions(text, topics[k].0)
    ensures FirstTopic(text, topics, default) == default
  {
    if topics != [] {
      assert !Mentions(text, topics[0].0);
      assert forall k | 0 <= k < |topics| - 1 :: topics[1..][k] == topics[k + 1];
      FirstTopicDefault(text, topics[1..], default);
    }
  }

  /** The first matching topic wins, in the order create, join, waiting/video, mute/camera,
      note, record; only an input that mentions none of them gets the default reply. */
  lemma FallbackPrecedence(input: string, j: nat)
    requires j < |Topics| && Mentions(Lower(input), Topics[j].0)
    requires forall k | 0 <= k < j :: !Mentions(Lower(input), Topics[k].0)
    ensures FallbackReply(input, true) == Topics[j].1
  {
    FallbackIsFirstTopic(input);
    FirstTopicPicks(Lower(input), Topics, DefaultReply, j);
  }

  lemma FallbackDefault(input: string)
    requires forall k | 0 <= k < |Topics| :: !Mentions(Lower(input), Topics[k].0)
    ensures FallbackReply(input, true) == DefaultReply
  {
    FallbackIsFirstTopic(input);
    FirstTopicDefault(Lower(input), Topics, DefaultReply);
  }

  // -----------------------------------------------------------------------------------------
  // `normalizeLine`

  predicate IsLowerAlnum(c: char) { IsAsciiLower(c) || IsDigit(c) }

  /** `.replace(/[^a-z0-9]/g, '')`. */
  function KeepLowerAlnum(s: string): (r: string)
    ensures forall i | 0 <= i < |r| :: IsLowerAlnum(r[i])
    ensures |r| <= |s|
  {
    if s == [] then []
    else (if IsLowerAlnum(s[0]) then [s[0]] else []) + KeepLowerAlnum(s[1..])
  }

  /** `normalizeLine`: lower-cased, with everything but `[a-z0-9]` removed. */
  function NormalizeLine(line: string): (r: string)
    ensures forall i | 0 <= i < |r| :: IsLowerAlnum(r[i])
  {
    KeepLowerAlnum(Lower(line))
  }

  lemma {:induction false} KeepLowerAlnumOfKept(s: string)
    requires forall i | 0 <= i < |s| :: IsLowerAlnum(s[i])
    ensures KeepLowerAlnum(s) == s
  {
    if s != [] {
      KeepLowerAlnumOfKept(s[1..]);
      assert [s[0]] + s[1..] == s;
    }
  }

  /** Normalising twice is normalising once. */
  lemma NormalizeIdempotent(line: string)
    ensures NormalizeLine(NormalizeLine(line)) == NormalizeLine(line)
  {
    var r := NormalizeLine(line);
    assert Lower(r) == r;
    KeepLowerAlnumOfKept(r);
  }

  /** Normalising ignores letter case. */
  lemma NormalizeIgnoresCase(line: string)
    ensures NormalizeLine(Lower(line)) == NormalizeLine(line)
  {
    LowerIdempotent(line);
  }

  // -----------------------------------------------------------------------------------------
  // `sanitizeAiReply`

  const QuickQuestions: seq<string> := [
    "How do I create and share a meeting?", "How do I join using meeting ID?",
    "Why does it show waiting for video?", "How do Camera and Mute buttons work?",
    "How do I use notes in a meeting?"
  ]

  /** `blockedNormalized`: the normalised quick questions and `links too`. */
  function Blocked(): set<string> {
    set q | q in ["links too"] + QuickQuestions :: NormalizeLine(q)
  }

  /** The case-insensitive occurrence of the lower-case `marker` at `i`. */
  predicate MatchesAt(s: string, marker: string, i: nat) {
    i + |marker| <= |s| && Lower(s[i..i + |marker|]) == marker
  }

  /** Where the first case-insensitive occurrence of `marker` starts (`|s|` when there is none). */
  function Find(s: string, marker: string): (i: nat)
    ensures i <= |s|
    ensures i < |s| ==> MatchesAt(s, marker, i)
    ensures forall j | 0 <= j < i :: !MatchesAt(s, marker, j)
    decreases |s|
  {
    if s == [] || MatchesAt(s, marker, 0) then 0
    else
      MatchesAtTail(s, marker);
      1 + Find(s[1..], marker)
  }

  lemma MatchesAtTail(s: string, marker: string)
    requires s != []
    ensures forall j | 1 <= j < |s| :: MatchesAt(s[1..], marker, j - 1) == MatchesAt(s, marker, j)
  {
    forall j | 1 <= j < |s|
      ensures MatchesAt(s[1..], marker, j - 1) == MatchesAt(s, marker, j)
    {
      if j + |marker| <= |s| { assert s[1..][j - 1..j - 1 + |marker|] == s[j..j + |marker|]; }
    }
  }

  /** `.replace(/<marker>[\s\S]*$/gi, '')`: everything from the first occurrence on is dropped. */
  function CutAt(s: string, marker: string): (r: string)
    ensures StartsWith(s, r)
    ensures forall j | 0 <= j < |r| :: !MatchesAt(s, marker, j)
    ensures |r| < |s| ==> MatchesAt(s, marker, |r|)
  {
    s[..Find(s, marker)]
  }

  /** A character that `\b` counts as part of a word. */
  predicate IsWordChar(c: char) { IsAsciiAlnum(c) || c == '_' }

  /** `.replace(/\b<question>/gi, '')`, scanning left to right: an occurrence is removed when
      it is not preceded by a word character of the original text. That is what `\b` means
      for a question that starts with a word character, as the five quick questions do; for
      one that starts otherwise `\b` would ask for the opposite, and this function does not
      model that case. */
  function RemoveQuestion(s: string, question: string, afterWord: bool): (r: string)
    ensures |r| <= |s|
    decreases |s|
  {
    if s == [] then []
    else if !afterWord && question != [] && QuestionAt(s, question, 0) then
      RemoveQuestion(s[|question|..], question, IsWordChar(s[|question| - 1]))
    else
      QuestionAtSuffix(s, question, 1);
      [s[0]] + RemoveQuestion(s[1..], question, IsWordChar(s[0]))
  }

  /** The case-insensitive occurrence of `question` at `j`. */
  predicate QuestionAt(s: string, question: string, j: nat) {
    j + |question| <= |s| && Lower(s[j..j + |question|]) == Lower(question)
  }

  lemma QuestionAtSuffix(s: string, question: string, k: nat)
    requires k <= |s|
    ensures forall j | 0 <= j < |s| - k :: QuestionAt(s[k..], question, j) == QuestionAt(s, question, j + k)
  {
    forall j | 0 <= j < |s| - k
      ensures QuestionAt(s[k..], question, j) == QuestionAt(s, question, j + k)
    {
      if j + k + |question| <= |s| { assert s[k..][j..j + |question|] == s[j + k..j + k + |question|]; }
    }
  }

  /** `r` is `s` with some characters dropped, kept ones at increasing indices `idx`, and every
      dropped character inside an occurrence of `question`. */
  ghost predicate KeptFrom(s: string, question: string, r: string, idx: seq<nat>) {
    && |idx| == |r|
    && (forall i | 0 <= i < |idx| :: idx[i] < |s| && r[i] == s[idx[i]])
    && (forall i, j | 0 <= i < j < |idx| :: idx[i] < idx[j])
    && (forall p | 0 <= p < |s| && p !in idx ::
          exists j | 0 <= j <= p && p < j + |question| :: QuestionAt(s, question, j))
  }

  /** Only occurrences of the question are removed: what is left is the text with some of its
      characters dropped, in order, and every dropped character lies inside an occurrence. */
  lemma {:induction false} RemoveQuestionKeeps(s: string, question: string, afterWord: bool) returns (idx: seq<nat>)
    ensures KeptFrom(s, question, RemoveQuestion(s, question, afterWord), idx)
    decreases |s|
  {
    if s == [] {
      idx := [];
    } else if !afterWord && question != [] && QuestionAt(s, question, 0) {
      var n := |question|;
      var rest := RemoveQuestionKeeps(s[n..], question, IsWordChar(s[n - 1]));
      idx := KeptAfterDrop(s, question, RemoveQuestion(s[n..], question, IsWordChar(s[n - 1])), rest);
    } else {
      var rest := RemoveQuestionKeeps(s[1..], question, IsWordChar(s[0]));
      idx := KeptAfterKeep(s, question, RemoveQuestion(s[1..], question, IsWordChar(s[0])), rest);
    }
  }

  /** An occurrence at the start is dropped whole. */
  lemma KeptAfterDrop(s: string, question: string, r: string, rest: seq<nat>) returns (idx: seq<nat>)
    requires question != [] && QuestionAt(s, question, 0)
    requires KeptFrom(s[|question|..], question, r, rest)
    ensures KeptFrom(s, question, r, idx)
  {
    var n := |question|;
    idx := seq(|rest|, i requires 0 <= i < |rest| => rest[i] + n);
    forall p | 0 <= p < |s| && p !in idx
      ensures exists j | 0 <= j <= p && p < j + n :: QuestionAt(s, question, j)
    {
      if p < n {
        assert QuestionAt(s, question, 0);
      } else {
        forall i | 0 <= i < |rest| ensures rest[i] != p - n {
          assert idx[i] in idx;
        }
        CoveredInSuffix(s, question, n, rest, p);
      }
    }
  }

  /** A first character that starts no removed occurrence is kept. */
  lemma KeptAfterKeep(s: string, question: string, r: string, rest: seq<nat>) returns (idx: seq<nat>)
    requires s != [] && KeptFrom(s[1..], question, r, rest)
    ensures KeptFrom(s, question, [s[0]] + r, idx)
  {
    idx := [0] + seq(|rest|, i requires 0 <= i < |rest| => rest[i] + 1);
    forall p | 0 <= p < |s| && p !in idx
      ensures exists j | 0 <= j <= p && p < j + |question| :: QuestionAt(s, question, j)
    {
      assert p != 0;
      forall i | 0 <= i < |rest| ensures rest[i] != p - 1 {
        assert idx[i + 1] in idx;
      }
      CoveredInSuffix(s, question, 1, rest, p);
    }
  }

  /** A position of `s` past `k` that is covered by an occurrence in `s[k..]` is covered in `s`. */
  lemma CoveredInSuffix(s: string, question: string, k: nat, rest: seq<nat>, p: nat)
    requires k <= p < |s|
    requires forall q | 0 <= q < |s| - k && q !in rest ::
               exists j | 0 <= j <= q && q < j + |question| :: QuestionAt(s[k..], question, j)
    requires p - k !in rest
    ensures exists j | 0 <= j <= p && p < j + |question| :: QuestionAt(s, question, j)
  {
    QuestionAtSuffix(s, question, k);
    var j' :| 0 <= j' <= p - k && p - k < j' + |question| && QuestionAt(s[k..], question, j');
    assert QuestionAt(s, question, j' + k);
  }

  /** An occurrence of `question` at `j` where `\b` holds: the character before it (at the
      start, the one the scan passed last, `afterWord`) is not a word character. */
  predicate BoundaryAt(s: string, question: string, afterWord: bool, j: nat) {
    && QuestionAt(s, question, j)
    && (if j == 0 then !afterWord else !IsWordChar(s[j - 1]))
  }

  lemma BoundaryAtTail(s: string, question: string, afterWord: bool)
    requires s != []
    ensures forall i | 0 <= i < |s| ::
              BoundaryAt(s[1..], question, IsWordChar(s[0]), i) == BoundaryAt(s, question, afterWord, i + 1)
  {
    QuestionAtSuffix(s, question, 1);
    forall i | 0 <= i < |s|
      ensures BoundaryAt(s[1..], question, IsWordChar(s[0]), i) == BoundaryAt(s, question, afterWord, i + 1)
    {
      if i < |s| - 1 {
        assert QuestionAt(s[1..], question, i) == QuestionAt(s, question, i + 1);
      }
    }
  }

  /** A first character where no occurrence starts is kept. */
  lemma RemoveKeepsHead(s: string, question: string, afterWord: bool)
    requires s != [] && !(question != [] && BoundaryAt(s, question, afterWord, 0))
    ensures RemoveQuestion(s, question, afterWord) == [s[0]] + RemoveQuestion(s[1..], question, IsWordChar(s[0]))
  {
  }

  /** Every occurrence is found: the first occurrence where `\b` holds is removed, the text
      before it is kept as it is, and the scan goes on after it. */
  lemma {:induction false} RemoveAtFirstBoundary(s: string, question: string, afterWord: bool, j: nat)
    requires question != [] && BoundaryAt(s, question, afterWord, j)
    requires forall i | 0 <= i < j :: !BoundaryAt(s, question, afterWord, i)
    ensures RemoveQuestion(s, question, afterWord)
            == s[..j] + RemoveQuestion(s[j + |question|..], question, IsWordChar(s[j + |question| - 1]))
    decreases j
  {
    if j == 0 {
      RemoveAtStart(s, question, afterWord);
    } else {
      FirstBoundaryInTail(s, question, afterWord, j);
      RemoveAtFirstBoundary(s[1..], question, IsWordChar(s[0]), j - 1);
      RemoveStepBack(s, question, afterWord, j);
    }
  }

  /** An occurrence at the start is removed. */
  lemma RemoveAtStart(s: string, question: string, afterWord: bool)
    requires question != [] && BoundaryAt(s, question, afterWord, 0)
    ensures RemoveQuestion(s, question, afterWord)
            == s[..0] + RemoveQuestion(s[|question|..], question, IsWordChar(s[|question| - 1]))
  {
    assert s[..0] == [];
  }

  /** The scan over `s[1..]` reaching its first occurrence at `j - 1` is the scan over `s`
      reaching it at `j`, once the first character is kept. */
  lemma RemoveStepBack(s: string, question: string, afterWord: bool, j: nat)
    requires 0 < j && j + |question| <= |s| && question != []
    requires !BoundaryAt(s, question, afterWord, 0)
    requires RemoveQuestion(s[1..], question, IsWordChar(s[0]))
             == s[1..][..j - 1] + RemoveQuestion(s[1..][j - 1 + |question|..], question, IsWordChar(s[1..][j - 1 + |question| - 1]))
    ensures RemoveQuestion(s, question, afterWord)
            == s[..j] + RemoveQuestion(s[j + |question|..], question, IsWordChar(s[j + |question| - 1]))
  {
    var n := |question|;
    var t := s[1..];
    RemoveKeepsHead(s, question, afterWord);
    var rest := RemoveQuestion(s[j + n..], question, IsWordChar(s[j + n - 1]));
    assert RemoveQuestion(t[j - 1 + n..], question, IsWordChar(t[j - 1 + n - 1])) == rest by {
      TailShift(s, j + n);
    }
    ConsSplice(s, j, RemoveQuestion(s, question, afterWord), RemoveQuestion(t, question, IsWordChar(s[0])), rest);
  }

  /** Indexing into `s[1..]` is indexing into `s` one place further on. */
  lemma TailShift<T>(s: seq<T>, k: nat)
    requires 1 < k <= |s|
    ensures s[1..][k - 1..] == s[k..] && s[1..][k - 2] == s[k - 1]
  {
  }

  /** `a` is `s[0]` then `b`, and `b` is the rest of `s[..j]` then `c`: so `a` is `s[..j]` then `c`. */
  lemma ConsSplice<T>(s: seq<T>, j: nat, a: seq<T>, b: seq<T>, c: seq<T>)
    requires 0 < j <= |s| && a == [s[0]] + b && b == s[1..][..j - 1] + c
    ensures a == s[..j] + c
  {
    assert [s[0]] + s[1..][..j - 1] == s[..j];
  }

  /** Past a first character that starts no occurrence, the first occurrence moves one place
      to the left. */
  lemma FirstBoundaryInTail(s: string, question: string, afterWord: bool, j: nat)
    requires 0 < j && BoundaryAt(s, question, afterWord, j)
    requires forall i | 0 <= i < j :: !BoundaryAt(s, question, afterWord, i)
    ensures !BoundaryAt(s, question, afterWord, 0)
    ensures BoundaryAt(s[1..], question, IsWordChar(s[0]), j - 1)
    ensures forall i | 0 <= i < j - 1 :: !BoundaryAt(s[1..], question, IsWordChar(s[0]), i)
  {
    assert !BoundaryAt(s, question, afterWord, 0);
    BoundaryAtTail(s, question, afterWord);
  }

  /** Text with no occurrence where `\b` holds is left as it is. */
  lemma {:induction false} RemoveWithoutBoundary(s: string, question: string, afterWord: bool)
    requires forall j | 0 <= j < |s| :: !BoundaryAt(s, question, afterWord, j)
    ensures RemoveQuestion(s, question, afterWord) == s
    decreases |s|
  {
    if s != [] {
      assert !BoundaryAt(s, question, afterWord, 0);
      RemoveKeepsHead(s, question, afterWord);
      BoundaryAtTail(s, question, afterWord);
      RemoveWithoutBoundary(s[1..], question, IsWordChar(s[0]));
    }
  }

  /** The chain of `.replace` calls, one question after the other, each on the text the
      previous one left. */
  function RemoveQuestions(s: string, questions: seq<string>): (r: string)
    ensures |r| <= |s|
    decreases |questions|
  {
    if questions == [] then s else RemoveQuestions(RemoveQuestion(s, questions[0], false), questions[1..])
  }

  /** Text holding none of the questions comes out of the chain unchanged. */
  lemma {:induction false} RemoveQuestionsUnchanged(s: string, questions: seq<string>)
    requires forall k, j | 0 <= k < |questions| && 0 <= j < |s| :: !QuestionAt(s, questions[k], j)
    ensures RemoveQuestions(s, questions) == s
    decreases |questions|
  {
    if questions != [] {
      RemoveWithoutBoundary(s, questions[0], false);
      assert forall k, j | 0 <= k < |questions[1..]| && 0 <= j < |s| :: !QuestionAt(s, questions[1..][k], j) by {
        forall k, j | 0 <= k < |questions[1..]| && 0 <= j < |s| ensures !QuestionAt(s, questions[1..][k], j) {
          assert questions[1..][k] == questions[k + 1];
        }
      }
      RemoveQuestionsUnchanged(s, questions[1..]);
    }
  }

  /** The number of leading characters of `s` that satisfy `p`. */
  function LeadingRun(s: string, p: char -> bool): (n: nat)
    ensures n <= |s| && forall i | 0 <= i < n :: p(s[i])
    ensures n < |s| ==> !p(s[n])
  {
    if s != [] && p(s[0]) then 1 + LeadingRun(s[1..], p) else 0
  }

  /** `.replace(/\s(\d+\.)\s/g, '\n$1 ')`: a number with its dot between two white-space
      characters starts a new line, and the white space after it becomes one space. The scan
      resumes after the replaced text. */
  function SplitNumbering(s: string): (r: string)
    ensures OnlySpacesChanged(s, r)
    decreases |s|
  {
    if s == [] then []
    else
      var d := LeadingRun(s[1..], IsDigit);
      if IsJsSpace(s[0]) && d >= 1 && d + 2 < |s| && s[d + 1] == '.' && IsJsSpace(s[d + 2]) then
        var rest := SplitNumbering(s[d + 3..]);
        SpacesChangedReplace(s, d, rest);
        "\n" + s[1..d + 2] + " " + rest
      else
        var rest := SplitNumbering(s[1..]);
        SpacesChangedKeep(s, rest);
        [s[0]] + rest
  }

  /** `r` is `s` with some white-space characters turned into a new line or a space, and
      nothing else changed. */
  predicate OnlySpacesChanged(s: string, r: string) {
    |r| == |s| && forall i | 0 <= i < |s| :: r[i] == s[i] || (IsJsSpace(s[i]) && (r[i] == '\n' || r[i] == ' '))
  }

  lemma SpacesChangedReplace(s: string, d: nat, rest: string)
    requires d + 2 < |s| && IsJsSpace(s[0]) && IsJsSpace(s[d + 2])
    requires OnlySpacesChanged(s[d + 3..], rest)
    ensures OnlySpacesChanged(s, "\n" + s[1..d + 2] + " " + rest)
  {
    var r := "\n" + s[1..d + 2] + " " + rest;
    forall i | 0 <= i < |s|
      ensures r[i] == s[i] || (IsJsSpace(s[i]) && (r[i] == '\n' || r[i] == ' '))
    {
      if d + 3 <= i {
        assert r[i] == rest[i - (d + 3)] && s[i] == s[d + 3..][i - (d + 3)];
      }
    }
  }

  lemma SpacesChangedKeep(s: string, rest: string)
    requires s != [] && OnlySpacesChanged(s[1..], rest)
    ensures OnlySpacesChanged(s, [s[0]] + rest)
  {
    var r := [s[0]] + rest;
    forall i | 1 <= i < |s|
      ensures r[i] == s[i] || (IsJsSpace(s[i]) && (r[i] == '\n' || r[i] == ' '))
    {
      assert r[i] == rest[i - 1] && s[i] == s[1..][i - 1];
    }
  }

  /** `.map((line) => line.trim()).filter(Boolean)`. */
  function TrimmedLines(lines: seq<string>): (r: seq<string>)
    ensures forall i | 0 <= i < |r| :: r[i] != [] && TrimmedBy(r[i], IsJsSpace)
    ensures (forall i | 0 <= i < |lines| :: '\n' !in lines[i]) ==> forall i | 0 <= i < |r| :: '\n' !in r[i]
  {
    if lines == [] then []
    else
      var t := Trim(lines[0]);
      TrimByTrims(lines[0], IsJsSpace);
      TrimByWithout(lines[0], IsJsSpace, '\n');
      (if t != [] then [t] else []) + TrimmedLines(lines[1..])
  }

  /** `.filter((line) => !blockedNormalized.has(normalizeLine(line)))`. */
  function Unblocked(lines: seq<string>): (r: seq<string>)
    ensures forall i | 0 <= i < |r| :: NormalizeLine(r[i]) !in Blocked() && r[i] in lines
  {
    if lines == [] then []
    else (if NormalizeLine(lines[0]) !in Blocked() then [lines[0]] else []) + Unblocked(lines[1..])
  }

  /** The lines of the reply, after the sources are cut off. */
  function CleanLines(s: string): (lines: seq<string>)
    ensures forall i | 0 <= i < |lines| ::
              lines[i] != [] && TrimmedBy(lines[i], IsJsSpace) && NormalizeLine(lines[i]) !in Blocked()
  {
    Unblocked(TrimmedLines(Split(SplitNumbering(RemoveQuestions(s, QuickQuestions)), '\n')))
  }

  /** The reply, after the sources are cut off. */
  function Clean(s: string): (c: string)
    ensures TrimmedBy(c, IsJsSpace)
    ensures CleanLines(s) == [] ==> c == []
  {
    TrimByTrims(Join(CleanLines(s), "\n"), IsJsSpace);
    Trim(Join(CleanLines(s), "\n"))
  }

  /** The reply as a string: `typeof rawReply === 'string' ? rawReply : String(rawReply || '')`. */
  function ReplyText(raw: Value): (text: string)
    ensures raw.Str? ==> text == raw.s
    ensures !Truthy(raw) ==> text == []
  {
    if raw.Str? then raw.s else ToJsString(Or(raw, Str("")))
  }

  /** `sanitizeAiReply`. */
  function SanitizeAiReply(raw: Value): (r: string)
    ensures Trim(ReplyText(raw)) == [] ==> r == []
  {
    var text := ReplyText(raw);
    if Trim(text) == [] then [] else Clean(CutAt(CutAt(text, "<sources>"), "<source>"))
  }

  /** The clean reply is its lines joined: when there are any, each is non-empty and trimmed, and
      none of them normalises to a quick question or to `links too`. */
  lemma SanitizeLines(raw: Value)
    ensures var r := SanitizeAiReply(raw);
            r == [] || forall i | 0 <= i < |Split(r, '\n')| ::
                         var line := Split(r, '\n')[i];
                         line != [] && TrimmedBy(line, IsJsSpace) && NormalizeLine(line) !in Blocked()
  {
    var text := ReplyText(raw);
    if Trim(text) != [] {
      CleanSplits(CutAt(CutAt(text, "<sources>"), "<source>"));
    }
  }

  /** Splitting the clean reply gives its lines back. */
  lemma CleanSplits(s: string)
    ensures Clean(s) == [] || Split(Clean(s), '\n') == CleanLines(s)
  {
    var lines := CleanLines(s);
    var numbered := SplitNumbering(RemoveQuestions(s, QuickQuestions));
    SplitJoin(numbered, '\n');
    var trimmed := TrimmedLines(Split(numbered, '\n'));
    assert forall i | 0 <= i < |lines| :: lines[i] in trimmed;
    if lines != [] {
      JoinTrimmedLines(lines);
      TrimByOfTrimmed(Join(lines, "\n"), IsJsSpace);
      JoinSplit(lines, '\n');
    } else {
      assert Join(lines, "\n") == [];
    }
  }

  /** Non-empty trimmed lines joined with new lines give a trimmed text. */
  lemma JoinTrimmedLines(lines: seq<string>)
    requires lines != [] && forall i | 0 <= i < |lines| :: lines[i] != [] && TrimmedBy(lines[i], IsJsSpace)
    ensures TrimmedBy(Join(lines, "\n"), IsJsSpace)
  {
    var s := Join(lines, "\n");
    JoinEndsWithLast(lines, "\n");
    var last := lines[|lines| - 1];
    assert s[|s| - 1] == last[|last| - 1] by {
      assert s[|s| - |last|..][|last| - 1] == s[|s| - 1];
    }
    if |lines| > 1 {
      assert s == lines[0] + "\n" + Join(lines[1..], "\n");
    }
    assert s[0] == lines[0][0];
  }

  /** A marker is found where it is written. */
  lemma MarkerMatches(m: string, b: string)
    requires MarkerShape(m)
    ensures Find(m + b, m) == 0
  {
    assert (m + b)[..|m|] == m;
    assert Lower(m) == m;
  }

  /** No occurrence can start inside a text free of `<` when the marker starts with `<`. */
  lemma {:induction false} FindSkip(a: string, t: string, marker: string)
    requires marker != [] && marker[0] == '<' && '<' !in a
    ensures Find(a + t, marker) == |a| + Find(t, marker)
  {
    if a != [] {
      var s := a + t;
      assert s[0] == a[0];
      assert !MatchesAt(s, marker, 0);
      assert s[1..] == a[1..] + t;
      FindSkip(a[1..], t, marker);
    } else {
      assert a + t == t;
    }
  }

  /** An occurrence cannot straddle the end of a text that has none, when the marker has its
      only `<` at the start and what follows starts with `<`. */
  lemma {:induction false} FindPrefix(a: string, t: string, marker: string)
    requires MarkerShape(marker)
    requires Find(a, marker) == |a|
    requires t == [] || t[0] == '<'
    ensures Find(a + t, marker) == |a| + Find(t, marker)
  {
    if a != [] {
      var s := a + t;
      assert !MatchesAt(a, marker, 0);
      assert |a| >= |marker| ==> s[..|marker|] == a[..|marker|];
      assert |a| < |marker| <= |s| ==> Lower(s[..|marker|])[|a|] == LowerChar(t[0]);
      assert !MatchesAt(s, marker, 0);
      assert s[1..] == a[1..] + t;
      FindPrefix(a[1..], t, marker);
    } else {
      assert a + t == t;
    }
  }

  /** A marker as the two patterns have it: lower case, with its only `<` at the start. */
  predicate MarkerShape(m: string) {
    m != [] && m[0] == '<' && forall i | 1 <= i < |m| :: m[i] != '<' && !IsAsciiUpper(m[i])
  }

  lemma MarkerFacts()
    ensures MarkerShape("<sources>") && MarkerShape("<source>")
  {
  }

  /** A `<sources>` block and everything after it are dropped: the reply is the clean-up of the
      text before it, when that text has no `<sources>` or `<source>` of its own. */
  lemma SanitizeDropsSources(a: string, b: string)
    requires Find(a, "<sources>") == |a| && Find(a, "<source>") == |a|
    ensures SanitizeAiReply(Str(a + "<sources>" + b)) == Clean(a)
  {
    MarkerFacts();
    CutFirst(a, b, "<sources>", "<source>");
    SanitizeOfCut(a + "<sources>" + b, a);
  }

  lemma SanitizeOfCut(text: string, a: string)
    requires Trim(text) != [] && CutAt(CutAt(text, "<sources>"), "<source>") == a
    ensures SanitizeAiReply(Str(text)) == Clean(a)
  {
  }

  /** The same for a `<source>` block. */
  lemma SanitizeDropsSource(a: string, b: string)
    requires Find(a, "<sources>") == |a| && Find(a, "<source>") == |a|
    ensures SanitizeAiReply(Str(a + "<source>" + b)) == Clean(a)
  {
    MarkerFacts();
    SourceThenSources(b);
    CutSecond(a, b, "<sources>", "<source>");
    SanitizeOfCut(a + "<source>" + b, a);
  }

  /** Cutting at `m1` and then at `m2` a text `a + m1 + b` leaves `a`. */
  lemma CutFirst(a: string, b: string, m1: string, m2: string)
    requires MarkerShape(m1) && MarkerShape(m2)
    requires Find(a, m1) == |a| && Find(a, m2) == |a|
    ensures CutAt(CutAt(a + m1 + b, m1), m2) == a && Trim(a + m1 + b) != []
  {
    NotBlank(a, m1, b);
    var text := a + m1 + b;
    assert text == a + (m1 + b);
    MarkerMatches(m1, b);
    FindPrefix(a, m1 + b, m1);
    assert CutAt(text, m1) == a;
  }

  /** Cutting at `m1` and then at `m2` a text `a + m2 + b` leaves `a`, when no `m1` can start
      inside `m2`. */
  lemma CutSecond(a: string, b: string, m1: string, m2: string)
    requires MarkerShape(m1) && MarkerShape(m2)
    requires Find(a, m1) == |a| && Find(a, m2) == |a|
    requires Find(m2 + b, m1) == |m2| + Find(b, m1)
    ensures CutAt(CutAt(a + m2 + b, m1), m2) == a && Trim(a + m2 + b) != []
  {
    NotBlank(a, m2, b);
    var k := Find(b, m1);
    CutSecondFirst(a, b, m1, m2);
    var cut := a + (m2 + b[..k]);
    MarkerMatches(m2, b[..k]);
    FindPrefix(a, m2 + b[..k], m2);
    assert cut[..|a|] == a;
  }

  lemma CutSecondFirst(a: string, b: string, m1: string, m2: string)
    requires MarkerShape(m1) && MarkerShape(m2)
    requires Find(a, m1) == |a|
    requires Find(m2 + b, m1) == |m2| + Find(b, m1)
    ensures CutAt(a + m2 + b, m1) == a + (m2 + b[..Find(b, m1)])
  {
    FindAfterPrefix(a, b, m1, m2);
    CutAtSplit(a, m2, b, m1);
  }

  /** The first occurrence in `a + m2 + b` lies in `b`. */
  lemma FindAfterPrefix(a: string, b: string, m1: string, m2: string)
    requires MarkerShape(m1) && MarkerShape(m2)
    requires Find(a, m1) == |a|
    requires Find(m2 + b, m1) == |m2| + Find(b, m1)
    ensures Find(a + m2 + b, m1) == |a| + |m2| + Find(b, m1)
  {
    AppendAssociative(a, m2, b);
    FindPrefix(a, m2 + b, m1);
  }

  /** Cutting `a + m2 + b` inside `b`. */
  lemma CutAtSplit(a: string, m2: string, b: string, m: string)
    requires Find(a + m2 + b, m) == |a| + |m2| + Find(b, m)
    ensures CutAt(a + m2 + b, m) == a + (m2 + b[..Find(b, m)])
  {
    var k := Find(b, m);
    AppendAssociative(a, m2, b);
    PrefixOfConcat(m2, b, k);
    PrefixOfConcat(a, m2 + b, |m2| + k);
  }

  lemma PrefixOfConcat(x: string, y: string, j: nat)
    requires j <= |y|
    ensures (x + y)[..|x| + j] == x + y[..j]
  {
  }

  /** A `<sources>` after `<source>` can only start after it. */
  lemma SourceThenSources(b: string)
    ensures Find("<source>" + b, "<sources>") == |"<source>"| + Find(b, "<sources>")
  {
    var m1 := "<sources>";
    var t := "<source>" + b;
    assert |m1| <= |t| ==> Lower(t[..|m1|])[7] == LowerChar(t[7]);
    assert !MatchesAt(t, m1, 0);
    assert t[1..] == "source>" + b;
    FindSkip("source>", b, m1);
  }

  /** A text with a `<` in it is not blank. */
  lemma NotBlank(a: string, m: string, b: string)
    requires m != [] && m[0] == '<'
    ensures Trim(a + m + b) != []
  {
    TrimByTrims(a + m + b, IsJsSpace);
    assert (a + m + b)[|a|] == '<';
  }

  // -----------------------------------------------------------------------------------------
  // `parseAssistantReply`

  /** How `parseAssistantReply` files one line: a numbered item without its `N. `, a bullet item
      without its `- ` or `* `, or a paragraph as it is. */
  datatype LineKind = OrderedItem(text: string) | BulletItem(text: string) | ParagraphItem(text: string)

  /** `^\d+\.\s+`: the length of the prefix, or 0 when the line does not start with one. */
  function NumberPrefix(line: string): (n: nat)
    ensures n <= |line|
    ensures n > 0 ==> n >= 3 && IsDigit(line[0]) && IsJsSpace(line[n - 1])
  {
    var d := LeadingRun(line, IsDigit);
    if d >= 1 && d < |line| && line[d] == '.' then
      var w := LeadingRun(line[d + 1..], IsJsSpace);
      if w >= 1 then assert line[d + 1..][w - 1] == line[d + w]; d + 1 + w else 0
    else 0
  }

  /** `^[-*]\s+`: the length of the prefix, or 0. */
  function BulletPrefix(line: string): (n: nat)
    ensures n <= |line|
    ensures n > 0 ==> (line[0] == '-' || line[0] == '*') && n >= 2 && IsJsSpace(line[n - 1])
  {
    if line != [] && (line[0] == '-' || line[0] == '*') then
      var w := LeadingRun(line[1..], IsJsSpace);
      if w >= 1 then assert line[1..][w - 1] == line[w]; 1 + w else 0
    else 0
  }

  function Classify(line: string): (k: LineKind)
    ensures k.ParagraphItem? ==> k.text == line
  {
    var n := NumberPrefix(line);
    if n > 0 then OrderedItem(Trim(line[n..]))
    else
      var b := BulletPrefix(line);
      if b > 0 then BulletItem(Trim(line[b..])) else ParagraphItem(line)
  }

  /** A line `N. text` is a numbered item whose text is `text`, whatever white space separates
      them; likewise `- text` and `* text` are bullet items. */
  lemma ClassifyNumbered(digits: string, space: string, rest: string)
    requires digits != [] && forall i | 0 <= i < |digits| :: IsDigit(digits[i])
    requires space != [] && forall i | 0 <= i < |space| :: IsJsSpace(space[i])
    requires rest == [] || !IsJsSpace(rest[0])
    ensures Classify(digits + "." + space + rest) == OrderedItem(Trim(rest))
  {
    var line := digits + "." + space + rest;
    var d := |digits|;
    LeadingRunOf(digits, "." + space + rest, IsDigit);
    assert line == digits + ("." + space + rest);
    assert line[d] == '.';
    assert line[d + 1..] == space + rest;
    LeadingRunOf(space, rest, IsJsSpace);
    assert line[d + 1 + |space|..] == rest;
  }

  lemma ClassifyBullet(mark: char, space: string, rest: string)
    requires mark == '-' || mark == '*'
    requires space != [] && forall i | 0 <= i < |space| :: IsJsSpace(space[i])
    requires rest == [] || !IsJsSpace(rest[0])
    ensures Classify([mark] + space + rest) == BulletItem(Trim(rest))
  {
    var line := [mark] + space + rest;
    assert LeadingRun(line, IsDigit) == 0;
    assert line[1..] == space + rest;
    LeadingRunOf(space, rest, IsJsSpace);
    assert line[1 + |space|..] == rest;
  }

  /** A line that starts with neither form is a paragraph. */
  lemma ClassifyParagraph(line: string)
    requires line == [] || (!IsDigit(line[0]) && line[0] != '-' && line[0] != '*')
    ensures Classify(line) == ParagraphItem(line)
  {
  }

  /** The run of characters satisfying `p` at the start of `a + b`, when `a` is such a run and
      `b` does not continue it. */
  lemma {:induction false} LeadingRunOf(a: string, b: string, p: char -> bool)
    requires forall i | 0 <= i < |a| :: p(a[i])
    requires b == [] || !p(b[0])
    ensures LeadingRun(a + b, p) == |a|
  {
    if a != [] {
      assert (a + b)[1..] == a[1..] + b;
      LeadingRunOf(a[1..], b, p);
    } else {
      assert a + b == b;
    }
  }

  /** A trimmed line yields a non-empty trimmed item under each kind. */
  lemma ClassifyNonEmpty(line: string)
    requires line != [] && TrimmedBy(line, IsJsSpace)
    ensures Classify(line).text != [] && TrimmedBy(Classify(line).text, IsJsSpace)
  {
    var n := NumberPrefix(line);
    var b := BulletPrefix(line);
    if n > 0 {
      NoTrailingSpace(line, n);
    } else if b > 0 {
      NoTrailingSpace(line, b);
    }
  }

  /** What is left after a prefix that ends in white space, of a line that does not end in
      white space, trims to something non-empty. */
  lemma NoTrailingSpace(line: string, n: nat)
    requires 0 < n <= |line| && !IsJsSpace(line[|line| - 1]) && IsJsSpace(line[n - 1])
    ensures Trim(line[n..]) != [] && TrimmedBy(Trim(line[n..]), IsJsSpace)
  {
    TrimByTrims(line[n..], IsJsSpace);
    assert line[n..][|line| - n - 1] == line[|line| - 1];
  }

  /** The three lists. */
  datatype Reply = Reply(ordered: seq<string>, bullets: seq<string>, paragraphs: seq<string>)

  /** One line pushed onto the list of its kind. */
  function Place(r: Reply, k: LineKind): Reply {
    match k
    case OrderedItem(t) => r.(ordered := r.ordered + [t])
    case BulletItem(t) => r.(bullets := r.bullets + [t])
    case ParagraphItem(t) => r.(paragraphs := r.paragraphs + [t])
  }

  /** The lists the lines fill, in order. */
  function Partition(lines: seq<string>): (r: Reply)
    ensures forall t | t in r.paragraphs :: t in lines && Classify(t).ParagraphItem?
  {
    if lines == [] then Reply([], [], [])
    else Place(Partition(lines[..|lines| - 1]), Classify(lines[|lines| - 1]))
  }

  /** `(text || '').split('\n').map((line) => line.trim()).filter(Boolean)`. */
  function ReplyLines(text: string): (lines: seq<string>)
    ensures forall i | 0 <= i < |lines| :: lines[i] != [] && TrimmedBy(lines[i], IsJsSpace)
  {
    TrimmedLines(Split(text, '\n'))
  }

  /** `parseAssistantReply`, with the `forEach` that pushes each line onto its list. */
  method ParseAssistantReply(text: string) returns (ordered: seq<string>, bullets: seq<string>, paragraphs: seq<string>)
    ensures Reply(ordered, bullets, paragraphs) == Partition(ReplyLines(text))
  {
    var lines := ReplyLines(text);
    ordered, bullets, paragraphs := [], [], [];
    var i := 0;
    while i < |lines|
      invariant 0 <= i <= |lines|
      invariant Reply(ordered, bullets, paragraphs) == Partition(lines[..i])
    {
      var line := lines[i];
      PartitionStep(lines, i);
      var n := NumberPrefix(line);
      if n > 0 {
        ordered := ordered + [Trim(line[n..])];
      } else {
        var b := BulletPrefix(line);
        if b > 0 {
          bullets := bullets + [Trim(line[b..])];
        } else {
          paragraphs := paragraphs + [line];
        }
      }
      i := i + 1;
    }
    assert lines[..i] == lines;
  }

  lemma PartitionStep(lines: seq<string>, i: nat)
    requires i < |lines|
    ensures Partition(lines[..i + 1]) == Place(Partition(lines[..i]), Classify(lines[i]))
  {
    assert lines[..i + 1][..i] == lines[..i];
  }

  function Combine(r1: Reply, r2: Reply): Reply {
    Reply(r1.ordered + r2.ordered, r1.bullets + r2.bullets, r1.paragraphs + r2.paragraphs)
  }

  /** Order is kept: the items of earlier lines come before those of later lines in each list. */
  lemma {:induction false} PartitionConcat(a: seq<string>, b: seq<string>)
    ensures Partition(a + b) == Combine(Partition(a), Partition(b))
  {
    if b == [] {
      assert a + b == a;
    } else {
      var init := b[..|b| - 1];
      assert (a + b)[..|a + b| - 1] == a + init;
      PartitionConcat(a, init);
      PlaceCombine(Partition(a), Partition(init), Classify(b[|b| - 1]));
    }
  }

  lemma PlaceCombine(r: Reply, q: Reply, k: LineKind)
    ensures Place(Combine(r, q), k) == Combine(r, Place(q, k))
  {
    match k
    case OrderedItem(t) => assert r.ordered + q.ordered + [t] == r.ordered + (q.ordered + [t]);
    case BulletItem(t) => assert r.bullets + q.bullets + [t] == r.bullets + (q.bullets + [t]);
    case ParagraphItem(t) => assert r.paragraphs + q.paragraphs + [t] == r.paragraphs + (q.paragraphs + [t]);
  }

  /** Every line lands in exactly one list. */
  lemma {:induction false} PartitionSizes(lines: seq<string>)
    ensures var r := Partition(lines); |r.ordered| + |r.bullets| + |r.paragraphs| == |lines|
  {
    if lines != [] {
      PartitionSizes(lines[..|lines| - 1]);
    }
  }

  /** A single line fills the list of its kind with its item. */
  lemma PartitionOne(line: string)
    ensures Partition([line]) == Place(Reply([], [], []), Classify(line))
  {
    assert [line][..0] == [];
  }

  /** No item of a parsed reply is blank, and each is trimmed. */
  lemma {:induction false} PartitionItemsNonEmpty(lines: seq<string>)
    requires forall i | 0 <= i < |lines| :: lines[i] != [] && TrimmedBy(lines[i], IsJsSpace)
    ensures var r := Partition(lines);
            forall s | s in r.ordered + r.bullets + r.paragraphs :: s != [] && TrimmedBy(s, IsJsSpace)
  {
    if lines != [] {
      var init := lines[..|lines| - 1];
      PartitionItemsNonEmpty(init);
      ClassifyNonEmpty(lines[|lines| - 1]);
    }
  }
}
