/** Voice selection in src/modules/baratinoo.c. */
module BaratinooVoices {
  import opened Collections

  datatype VoiceType = Male1 | Male2 | Male3 | Female1 | Female2 | Female3 | ChildMale | ChildFemale

  /** A voice with what lang_match_level gives for the language asked for; an age of 0 is not told. */
  datatype Voice = Voice(level: int, gender: string, age: int)

  function GenderOf(code: VoiceType): string {
    if code.Female1? || code.Female2? || code.Female3? || code.ChildFemale? then "female" else "male"
  }

  predicate IsChild(code: VoiceType) {
    code.ChildMale? || code.ChildFemale?
  }

  function One(b: bool): int {
    if b then 1 else 0
  }

  /** sort_voice: positive if `b` is better. */
  function SortVoice(a: Voice, b: Voice, code: VoiceType): int {
    var gender := GenderOf(code);
    var byLevel := b.level - a.level;
    var byGender := if a.gender != b.gender then One(gender == b.gender) - One(gender == a.gender) else 0;
    var byAge :=
      if IsChild(code) then One(b.age != 0 && b.age <= 15) - One(a.age != 0 && a.age <= 15)
      else if a.age != 0 && b.age != 0 then One(b.age > 15) - One(a.age > 15)
      else 0;
    byLevel + byGender + byAge
  }

  // ---------------------------------------------------------------- when the comparison is one of scores

  function Base(v: Voice, code: VoiceType): int {
    v.level + One(v.gender == GenderOf(code))
  }

  /** Among the voices somebody does not tell an age, somebody is told an adult, and somebody a child. */
  predicate AllAges(voices: seq<Voice>) {
    && (exists i :: 0 <= i < |voices| && voices[i].age == 0)
    && (exists i :: 0 <= i < |voices| && voices[i].age > 15)
    && (exists i :: 0 <= i < |voices| && voices[i].age != 0 && voices[i].age <= 15)
  }

  /** The comparison of any two is the difference of their scores. */
  ghost predicate IsByScore(voices: seq<Voice>, code: VoiceType, scores: seq<int>) {
    && |scores| == |voices|
    && forall i, j | 0 <= i < |voices| && 0 <= j < |voices| ::
         SortVoice(voices[i], voices[j], code) == scores[j] - scores[i]
  }

  /** Age counts, unless it is not told by all. */
  predicate AgeCounts(voices: seq<Voice>) {
    forall i | 0 <= i < |voices| :: voices[i].age != 0
  }

  function Score(v: Voice, code: VoiceType, ageCounts: bool): int {
    Base(v, code)
    + if IsChild(code) then One(v.age != 0 && v.age <= 15) else if ageCounts then One(v.age > 15) else 0
  }

  lemma SortIsByScore(voices: seq<Voice>, i: nat, j: nat, code: VoiceType)
    requires i < |voices| && j < |voices| && (IsChild(code) || !AllAges(voices))
    ensures SortVoice(voices[i], voices[j], code) ==
            Score(voices[j], code, AgeCounts(voices)) - Score(voices[i], code, AgeCounts(voices))
  {
    hide GenderOf;
    if !IsChild(code) && !AgeCounts(voices) {
      var k :| 0 <= k < |voices| && voices[k].age == 0;
      assert voices[i].age != 0 && voices[j].age != 0 ==> (voices[i].age > 15 <==> voices[j].age > 15);
    }
  }

  /** sort_voice compares by scores exactly if a child's voice is asked for, or the voices are not of all three kinds:
      an untold age, a told adult, a told child. */
  lemma ScoresExist(voices: seq<Voice>, code: VoiceType)
    ensures (exists scores :: IsByScore(voices, code, scores)) <==> IsChild(code) || !AllAges(voices)
  {
    hide SortVoice, Score;
    if IsChild(code) || !AllAges(voices) {
      var scores := seq(|voices|, i requires 0 <= i < |voices| => Score(voices[i], code, AgeCounts(voices)));
      forall i, j | 0 <= i < |voices| && 0 <= j < |voices|
        ensures SortVoice(voices[i], voices[j], code) == scores[j] - scores[i]
      {
        SortIsByScore(voices, i, j, code);
      }
      assert IsByScore(voices, code, scores);
    } else {
      var u :| 0 <= u < |voices| && voices[u].age == 0;
      var a :| 0 <= a < |voices| && voices[a].age > 15;
      var c :| 0 <= c < |voices| && voices[c].age != 0 && voices[c].age <= 15;
      UntoldAge(voices[a], voices[u], voices[c], code);
    }
  }

  /** An untold age in between makes an adult and a child less different than they are. */
  lemma UntoldAge(adult: Voice, untold: Voice, child: Voice, code: VoiceType)
    requires !IsChild(code) && adult.age > 15 && untold.age == 0 && child.age != 0 && child.age <= 15
    ensures SortVoice(adult, untold, code) + SortVoice(untold, child, code) == SortVoice(adult, child, code) + 1
  {
    hide GenderOf;
  }

  // ---------------------------------------------------------------- the choice

  function Offset(code: VoiceType): nat {
    if code.Male3? || code.Female3? then 2 else if code.Male2? || code.Female2? then 1 else 0
  }

  /** The best match so far and the number of voices as good as it. */
  datatype Choice = Choice(best: int, nth: nat)

  function Step(voices: seq<Voice>, i: nat, c: Choice, code: VoiceType): (r: Choice)
    requires i < |voices| && (i > 0 ==> 0 <= c.best < i)
    ensures 0 <= r.best <= i
  {
    if i == 0 then Choice(0, c.nth + 1)
    else
      var cmp := SortVoice(voices[c.best], voices[i], code);
      if cmp < 0 then c
      else
        var nth := if cmp > 0 then 0 else c.nth;
        Choice(if nth <= Offset(code) then i else c.best, nth + 1)
  }

  /** The choice among the first k voices. */
  function Chosen(voices: seq<Voice>, k: nat, code: VoiceType): (c: Choice)
    requires k <= |voices|
    ensures if k == 0 then c == Choice(-1, 0) else 0 <= c.best < k
  {
    if k == 0 then Choice(-1, 0) else Step(voices, k - 1, Chosen(voices, k - 1, code), code)
  }

  /** Voices of a certain score before place k. */
  function Count(voices: seq<Voice>, k: nat, score: int, code: VoiceType, ageCounts: bool): nat
    requires k <= |voices|
  {
    if k == 0 then 0
    else Count(voices, k - 1, score, code, ageCounts)
         + if Score(voices[k - 1], code, ageCounts) == score then 1 else 0
  }

  lemma {:induction false} NoneYet(voices: seq<Voice>, k: nat, score: int, code: VoiceType, ageCounts: bool)
    requires k <= |voices| && forall i | 0 <= i < k :: Score(voices[i], code, ageCounts) < score
    ensures Count(voices, k, score, code, ageCounts) == 0
  {
    if k > 0 {
      NoneYet(voices, k - 1, score, code, ageCounts);
    }
  }

  /** Of the first k voices `best` has the best score, and as many others of that score before it as asked for, if
      there are so many. */
  predicate IsChoice(voices: seq<Voice>, k: nat, best: nat, code: VoiceType, ageCounts: bool) {
    && best < k <= |voices|
    && (forall i | 0 <= i < k :: Score(voices[i], code, ageCounts) <= Score(voices[best], code, ageCounts))
    && var s := Score(voices[best], code, ageCounts);
       Count(voices, best, s, code, ageCounts) == Min(Offset(code), Count(voices, k, s, code, ageCounts) - 1)
  }

  lemma CountStep(voices: seq<Voice>, i: nat, score: int, code: VoiceType, ageCounts: bool)
    requires i < |voices|
    ensures Count(voices, i + 1, score, code, ageCounts) ==
            Count(voices, i, score, code, ageCounts) + if Score(voices[i], code, ageCounts) == score then 1 else 0
  {
  }

  lemma OneWorse(voices: seq<Voice>, i: nat, best: nat, code: VoiceType, ageCounts: bool)
    requires i < |voices| && IsChoice(voices, i, best, code, ageCounts)
    requires Score(voices[i], code, ageCounts) < Score(voices[best], code, ageCounts)
    ensures IsChoice(voices, i + 1, best, code, ageCounts)
    ensures var s := Score(voices[best], code, ageCounts);
            Count(voices, i + 1, s, code, ageCounts) == Count(voices, i, s, code, ageCounts)
  {
    CountStep(voices, i, Score(voices[best], code, ageCounts), code, ageCounts);
    hide Score, Offset, Count;
  }

  /** One as good is taken if it is the one asked for. */
  lemma OneAsGood(voices: seq<Voice>, i: nat, best: nat, code: VoiceType, ageCounts: bool)
    requires i < |voices| && IsChoice(voices, i, best, code, ageCounts)
    requires Score(voices[i], code, ageCounts) == Score(voices[best], code, ageCounts)
    ensures var s := Score(voices[best], code, ageCounts);
            var n := Count(voices, i, s, code, ageCounts);
            && IsChoice(voices, i + 1, if n <= Offset(code) then i else best, code, ageCounts)
            && Count(voices, i + 1, s, code, ageCounts) == n + 1
  {
    CountStep(voices, i, Score(voices[best], code, ageCounts), code, ageCounts);
    hide Score, Offset, Count;
  }

  lemma OneBetter(voices: seq<Voice>, i: nat, best: nat, code: VoiceType, ageCounts: bool)
    requires i < |voices| && IsChoice(voices, i, best, code, ageCounts)
    requires Score(voices[i], code, ageCounts) > Score(voices[best], code, ageCounts)
    ensures IsChoice(voices, i + 1, i, code, ageCounts)
    ensures Count(voices, i + 1, Score(voices[i], code, ageCounts), code, ageCounts) == 1
  {
    NoneYet(voices, i, Score(voices[i], code, ageCounts), code, ageCounts);
    CountStep(voices, i, Score(voices[i], code, ageCounts), code, ageCounts);
    hide Score, Offset, Count;
  }

  lemma First(voices: seq<Voice>, code: VoiceType, ageCounts: bool)
    requires voices != []
    ensures IsChoice(voices, 1, 0, code, ageCounts)
    ensures Count(voices, 1, Score(voices[0], code, ageCounts), code, ageCounts) == 1
  {
  }

  lemma {:induction false} ChosenIsBest(voices: seq<Voice>, k: nat, code: VoiceType)
    requires 0 < k <= |voices| && (IsChild(code) || !AllAges(voices))
    ensures var c, ageCounts := Chosen(voices, k, code), AgeCounts(voices);
            && IsChoice(voices, k, c.best, code, ageCounts)
            && c.nth == Count(voices, k, Score(voices[c.best], code, ageCounts), code, ageCounts)
  {
    hide Score, SortVoice, AgeCounts, AllAges, IsChoice, Count;
    First(voices, code, AgeCounts(voices));
    if k > 1 {
      ChosenIsBest(voices, k - 1, code);
      var c := Chosen(voices, k - 1, code);
      SortIsByScore(voices, c.best, k - 1, code);
      var s, t := Score(voices[c.best], code, AgeCounts(voices)), Score(voices[k - 1], code, AgeCounts(voices));
      if t < s {
        OneWorse(voices, k - 1, c.best, code, AgeCounts(voices));
      } else if t == s {
        OneAsGood(voices, k - 1, c.best, code, AgeCounts(voices));
      } else {
        OneBetter(voices, k - 1, c.best, code, AgeCounts(voices));
      }
    }
  }

  /** baratinoo_find_voice: -1 if there are no voices, one of the best wherever there are scores, and always the choice
      its loop makes. */
  method FindVoice(voices: seq<Voice>, code: VoiceType) returns (bestMatch: int)
    ensures bestMatch == Chosen(voices, |voices|, code).best
    ensures if voices == [] then bestMatch == -1 else 0 <= bestMatch < |voices|
    ensures voices != [] && (IsChild(code) || !AllAges(voices)) ==>
              IsChoice(voices, |voices|, bestMatch, code, AgeCounts(voices))
  {
    hide SortVoice, AllAges, IsChoice;
    bestMatch := -1;
    var nthMatch, offset := 0, 0;
    if code.Male3? || code.Female3? {
      offset := offset + 1;
    }
    if code.Male3? || code.Female3? || code.Male2? || code.Female2? {
      offset := offset + 1;
    }
    var bestInfo := Voice(0, "", 0);
    for i := 0 to |voices|
      invariant Choice(bestMatch, nthMatch) == Chosen(voices, i, code)
      invariant i > 0 ==> bestInfo == voices[bestMatch]
    {
      if i == 0 {
        bestMatch := i;
        bestInfo := voices[i];
        nthMatch := nthMatch + 1;
      } else {
        var info := voices[i];
        var cmp := SortVoice(bestInfo, info, code);
        if cmp >= 0 {
          if cmp > 0 {
            nthMatch := 0;
          }
          if nthMatch <= offset {
            bestMatch := i;
            bestInfo := info;
          }
          nthMatch := nthMatch + 1;
        }
      }
    }
    if voices != [] && (IsChild(code) || !AllAges(voices)) {
      ChosenIsBest(voices, |voices|, code);
    }
  }

  // ---------------------------------------------------------------- what the choice heeds

  /** The voice types for a woman or a girl. */
  predicate AsksFemale(code: VoiceType) {
    code == Female1 || code == Female2 || code == Female3 || code == ChildFemale
  }

  predicate SameAge(voices: seq<Voice>) {
    forall i, j | 0 <= i < |voices| && 0 <= j < |voices| :: voices[i].age == voices[j].age
  }

  predicate SameLevel(voices: seq<Voice>) {
    forall i, j | 0 <= i < |voices| && 0 <= j < |voices| :: voices[i].level == voices[j].level
  }

  predicate SameGender(voices: seq<Voice>) {
    forall i, j | 0 <= i < |voices| && 0 <= j < |voices| :: voices[i].gender == voices[j].gender
  }

  lemma SameAgeIsNotAll(voices: seq<Voice>)
    requires SameAge(voices)
    ensures !AllAges(voices)
  {
  }

  /** Of voices alike in level and age one of the gender asked for is chosen if there is one. */
  lemma GenderIsHeeded(voices: seq<Voice>, i: nat, code: VoiceType)
    requires i < |voices| && SameAge(voices) && SameLevel(voices)
    requires voices[i].gender == if AsksFemale(code) then "female" else "male"
    ensures voices[Chosen(voices, |voices|, code).best].gender == voices[i].gender
  {
    SameAgeIsNotAll(voices);
    ChosenIsBest(voices, |voices|, code);
    var best := Chosen(voices, |voices|, code).best;
    hide Chosen, AllAges, AgeCounts, Count, IsChild;
    assert Score(voices[i], code, AgeCounts(voices)) <= Score(voices[best], code, AgeCounts(voices));
  }

  /** Of voices alike in gender and age one with the best match of the language is chosen. */
  lemma LevelIsHeeded(voices: seq<Voice>, i: nat, code: VoiceType)
    requires i < |voices| && SameAge(voices) && SameGender(voices)
    ensures voices[i].level <= voices[Chosen(voices, |voices|, code).best].level
  {
    SameAgeIsNotAll(voices);
    ChosenIsBest(voices, |voices|, code);
    var best := Chosen(voices, |voices|, code).best;
    hide Chosen, AllAges, AgeCounts, Count, IsChild, GenderOf;
    assert Score(voices[i], code, AgeCounts(voices)) <= Score(voices[best], code, AgeCounts(voices));
  }

  /** Of voices alike in level and gender a child of at most 15 is chosen for a child's voice if there is one, and, if
      all ages are told, somebody older for an adult's. */
  lemma AgeIsHeeded(voices: seq<Voice>, i: nat, code: VoiceType)
    requires i < |voices| && SameLevel(voices) && SameGender(voices)
    requires forall j | 0 <= j < |voices| :: voices[j].age > 0
    ensures var best := voices[Chosen(voices, |voices|, code).best];
            if code == ChildMale || code == ChildFemale then voices[i].age <= 15 ==> best.age <= 15
            else voices[i].age > 15 ==> best.age > 15
  {
    NoUntoldAge(voices);
    ChosenIsBest(voices, |voices|, code);
    var best := Chosen(voices, |voices|, code).best;
    hide Chosen, AllAges, AgeCounts, Count, GenderOf;
    assert Score(voices[i], code, AgeCounts(voices)) <= Score(voices[best], code, AgeCounts(voices));
  }

  lemma NoUntoldAge(voices: seq<Voice>)
    requires forall j | 0 <= j < |voices| :: voices[j].age > 0
    ensures !AllAges(voices) && AgeCounts(voices)
  {
  }

  lemma {:induction false} AllCount(voices: seq<Voice>, k: nat, v: Voice, code: VoiceType, ageCounts: bool)
    requires k <= |voices| && forall i | 0 <= i < |voices| :: voices[i] == v
    ensures Count(voices, k, Score(v, code, ageCounts), code, ageCounts) == k
  {
    if k > 0 {
      AllCount(voices, k - 1, v, code, ageCounts);
    }
  }

  /** Of voices alike in everything the one asked for by number is chosen, or the last if there are not so many. */
  lemma NumberIsHeeded(voices: seq<Voice>, v: Voice, code: VoiceType)
    requires voices != [] && forall i | 0 <= i < |voices| :: voices[i] == v
    ensures Chosen(voices, |voices|, code).best ==
            if code == Male3 || code == Female3 then Min(2, |voices| - 1)
            else if code == Male2 || code == Female2 then Min(1, |voices| - 1)
            else 0
  {
    SameAgeIsNotAll(voices);
    ChosenIsBest(voices, |voices|, code);
    var best := Chosen(voices, |voices|, code).best;
    AllCount(voices, best, v, code, AgeCounts(voices));
    AllCount(voices, |voices|, v, code, AgeCounts(voices));
    hide Chosen, AllAges, AgeCounts, Count, Score;
  }

  // ---------------------------------------------------------------- when nobody better is passed over

  datatype Kind = Untold | Adult | Child

  function KindOf(v: Voice): Kind {
    if v.age == 0 then Untold else if v.age > 15 then Adult else Child
  }

  /** What the ages add to the comparison of two voices for an adult. */
  function Edge(a: Kind, b: Kind): int {
    if a.Adult? && b.Child? then -1 else if a.Child? && b.Adult? then 1 else 0
  }

  lemma SortIsByKind(a: Voice, b: Voice, code: VoiceType)
    requires !IsChild(code)
    ensures SortVoice(a, b, code) == Base(b, code) - Base(a, code) + Edge(KindOf(a), KindOf(b))
  {
    hide GenderOf;
  }

  /** The kinds in a circle: a tie with the next kind is where others can fall behind. */
  predicate ComesNext(a: Kind, b: Kind) {
    (a.Untold? && b.Adult?) || (a.Adult? && b.Child?) || (a.Child? && b.Untold?)
  }

  predicate NoneBetter(voices: seq<Voice>, k: nat, best: nat, code: VoiceType) {
    best < k <= |voices| && forall i | 0 <= i < k :: SortVoice(voices[best], voices[i], code) <= 0
  }

  /** None of the first k voices is better than the best match; and while there is no other as good as it, those of the
      next kind are worse. */
  predicate Unbeaten(voices: seq<Voice>, k: nat, c: Choice, code: VoiceType) {
    && 0 <= c.best && c.nth >= 1 && NoneBetter(voices, k, c.best, code)
    && (c.nth == 1 ==>
          forall i | 0 <= i < k && ComesNext(KindOf(voices[c.best]), KindOf(voices[i])) ::
            SortVoice(voices[c.best], voices[i], code) < 0)
  }

  /** A better voice takes the place of the best match: it beats what that one beat, and the next kind more clearly. */
  lemma BetterBeats(best: Voice, better: Voice, v: Voice, code: VoiceType)
    requires !IsChild(code) && SortVoice(best, better, code) > 0 && SortVoice(best, v, code) <= 0
    ensures SortVoice(better, v, code) <= 0
    ensures ComesNext(KindOf(better), KindOf(v)) ==> SortVoice(better, v, code) < 0
  {
    SortIsByKind(best, better, code);
    SortIsByKind(best, v, code);
    SortIsByKind(better, v, code);
    hide SortVoice, Base;
  }

  /** So does one as good, as long as the voices of the next kind are worse. */
  lemma AsGoodBeats(best: Voice, other: Voice, v: Voice, code: VoiceType)
    requires !IsChild(code) && SortVoice(best, other, code) == 0 && SortVoice(best, v, code) <= 0
    requires ComesNext(KindOf(best), KindOf(v)) ==> SortVoice(best, v, code) < 0
    ensures SortVoice(other, v, code) <= 0
  {
    SortIsByKind(best, other, code);
    SortIsByKind(best, v, code);
    SortIsByKind(other, v, code);
    hide SortVoice, Base;
  }

  lemma SameVoice(v: Voice, code: VoiceType)
    ensures SortVoice(v, v, code) == 0 && !ComesNext(KindOf(v), KindOf(v))
  {
  }

  lemma OneMoreUnbeaten(voices: seq<Voice>, i: nat, c: Choice, code: VoiceType)
    requires 0 < i < |voices| && !IsChild(code) && Offset(code) < 2 && Unbeaten(voices, i, c, code)
    ensures Unbeaten(voices, i + 1, Step(voices, i, c, code), code)
  {
    hide SortVoice, ComesNext, KindOf;
    var r := Step(voices, i, c, code);
    SameVoice(voices[i], code);
    forall j | 0 <= j < i + 1
      ensures SortVoice(voices[r.best], voices[j], code) <= 0
      ensures r.nth == 1 && ComesNext(KindOf(voices[r.best]), KindOf(voices[j])) ==>
                SortVoice(voices[r.best], voices[j], code) < 0
    {
      if r.best == i && j < i {
        if SortVoice(voices[c.best], voices[i], code) > 0 {
          BetterBeats(voices[c.best], voices[i], voices[j], code);
        } else {
          AsGoodBeats(voices[c.best], voices[i], voices[j], code);
        }
      }
    }
  }

  /** For an adult's first or second voice the loop never passes over a better one, whatever ages are told. */
  lemma {:induction false} FirstTwoAreBest(voices: seq<Voice>, k: nat, code: VoiceType)
    requires 0 < k <= |voices| && !IsChild(code) && Offset(code) < 2
    ensures Unbeaten(voices, k, Chosen(voices, k, code), code)
  {
    hide Step, SortVoice, ComesNext, Offset;
    if k == 1 {
      SameVoice(voices[0], code);
      FirstChosen(voices, code);
    } else {
      FirstTwoAreBest(voices, k - 1, code);
      OneMoreUnbeaten(voices, k - 1, Chosen(voices, k - 1, code), code);
    }
  }

  lemma FirstChosen(voices: seq<Voice>, code: VoiceType)
    requires voices != []
    ensures Chosen(voices, 1, code) == Choice(0, 1)
  {
  }

  lemma BestByScore(voices: seq<Voice>, best: nat, code: VoiceType)
    requires (IsChild(code) || !AllAges(voices)) && IsChoice(voices, |voices|, best, code, AgeCounts(voices))
    ensures NoneBetter(voices, |voices|, best, code)
  {
    hide SortVoice, Score, AllAges, AgeCounts, Count;
    forall i | 0 <= i < |voices|
      ensures SortVoice(voices[best], voices[i], code) <= 0
    {
      SortIsByScore(voices, best, i, code);
    }
  }

  /** There is a voice and none better than the one chosen, or there is none. */
  predicate ChosenWell(voices: seq<Voice>, code: VoiceType) {
    voices != [] ==> NoneBetter(voices, |voices|, Chosen(voices, |voices|, code).best, code)
  }

  predicate Among(voices: seq<Voice>, kinds: set<Kind>) {
    forall i | 0 <= i < |voices| :: KindOf(voices[i]) in kinds
  }

  lemma AllAgesAreAllKinds(voices: seq<Voice>, kinds: set<Kind>)
    requires Among(voices, kinds) && AllAges(voices)
    ensures {Untold, Adult, Child} <= kinds
  {
    var u :| 0 <= u < |voices| && voices[u].age == 0;
    var a :| 0 <= a < |voices| && voices[a].age > 15;
    var c :| 0 <= c < |voices| && voices[c].age != 0 && voices[c].age <= 15;
    assert KindOf(voices[u]) in kinds && KindOf(voices[a]) in kinds && KindOf(voices[c]) in kinds;
  }

  /** An adult, an untold and a child, alike otherwise. */
  function Alike(level: int, gender: string): seq<Voice> {
    [Voice(level, gender, 30), Voice(level, gender, 0), Voice(level, gender, 10)]
  }

  lemma WorseChosen(level: int, gender: string, code: VoiceType)
    requires Offset(code) == 2
    ensures var voices := Alike(level, gender);
            Chosen(voices, 3, code).best == 2 && SortVoice(voices[2], voices[0], code) > 0
  {
    var voices := Alike(level, gender);
    assert Chosen(voices, 1, code) == Choice(0, 1);
    assert Chosen(voices, 2, code) == Choice(1, 2);
    assert Chosen(voices, 3, code) == Choice(2, 3);
  }

  lemma KindsSuffice(voices: seq<Voice>, kinds: set<Kind>, code: VoiceType)
    requires Among(voices, kinds)
    requires IsChild(code) || Offset(code) < 2 || !({Untold, Adult, Child} <= kinds)
    ensures ChosenWell(voices, code)
  {
    hide Chosen, NoneBetter, AllAges, IsChoice, Offset;
    if voices != [] {
      if IsChild(code) || !({Untold, Adult, Child} <= kinds) {
        if AllAges(voices) {
          AllAgesAreAllKinds(voices, kinds);
        }
        ChosenIsBest(voices, |voices|, code);
        BestByScore(voices, Chosen(voices, |voices|, code).best, code);
      } else {
        FirstTwoAreBest(voices, |voices|, code);
      }
    }
  }

  /** Of voices of given kinds the loop never chooses one while there is a better one exactly if a child's voice is
      asked for, or an adult's first or second one, or the kinds are not all three. */
  lemma ChosenWellExactly(kinds: set<Kind>, code: VoiceType)
    ensures (forall voices | Among(voices, kinds) :: ChosenWell(voices, code)) <==>
            IsChild(code) || Offset(code) < 2 || !({Untold, Adult, Child} <= kinds)
  {
    hide ChosenWell, Among, Offset;
    if IsChild(code) || Offset(code) < 2 || !({Untold, Adult, Child} <= kinds) {
      forall voices | Among(voices, kinds)
        ensures ChosenWell(voices, code)
      {
        KindsSuffice(voices, kinds, code);
      }
    } else {
      AlikeIsChosenBadly(kinds, code);
    }
  }

  lemma AlikeAreAll(level: int, gender: string)
    ensures forall i | 0 <= i < |Alike(level, gender)| :: KindOf(Alike(level, gender)[i]) in {Untold, Adult, Child}
    ensures |Alike(level, gender)| == 3
  {
  }

  lemma AlikeIsChosenBadly(kinds: set<Kind>, code: VoiceType)
    requires Offset(code) >= 2 && {Untold, Adult, Child} <= kinds
    ensures Among(Alike(0, "male"), kinds) && !ChosenWell(Alike(0, "male"), code)
  {
    hide Chosen, SortVoice, Alike, KindOf;
    WorseChosen(0, "male", code);
    AlikeAreAll(0, "male");
  }

  /** Where there are no scores the choice can be strictly worse than a voice passed over: asked for the third male
      voice, of an adult, an untold and a child, alike otherwise, it takes the child. */
  method WorseChoice(level: int, gender: string) returns (bestMatch: int)
    ensures var voices := Alike(level, gender); bestMatch == 2 && SortVoice(voices[2], voices[0], Male3) > 0
  {
    WorseChosen(level, gender, Male3);
    hide Chosen, SortVoice;
    bestMatch := FindVoice(Alike(level, gender), Male3);
  }
}
