/**
 * The resume analyzer's keyword match (utils/dsa.ts, feature 4): count the
 * resume's words in a frequency map, then split the required skills into
 * those whose lower-case form is one of the words and those that are not.
 *
 * The word splitter (a regular expression over the lower-cased text) is not
 * modelled: the method takes its output, the sequence of words.
 */
module Resume {
  import opened Text
  import opened Sequences
  import opened Tally

  /** The skills whose lower-case form occurs among the words, in their order. */
  function Matched(requiredSkills: seq<string>, words: seq<string>): seq<string>
  {
    Filter(requiredSkills, (skill: string) => Lower(skill) in words)
  }

  /** The skills whose lower-case form does not occur among the words, in their order. */
  function Missing(requiredSkills: seq<string>, words: seq<string>): seq<string>
  {
    Filter(requiredSkills, (skill: string) => Lower(skill) !in words)
  }

  /** `analyzeResumeKeywords(text, requiredSkills)`, given the words of `text`. */
  method AnalyzeResumeKeywords(words: seq<string>, requiredSkills: seq<string>)
    returns (matchedSkills: seq<string>, missingSkills: seq<string>, keywordCount: int)
    ensures matchedSkills == Matched(requiredSkills, words)
    ensures missingSkills == Missing(requiredSkills, words)
    ensures keywordCount == |words|
  {
    var frequencyMap: map<string, int> := map[];
    for i := 0 to |words|
      invariant frequencyMap == AddCounts(map[], words[..i])
    {
      assert words[..i + 1][..i] == words[..i];
      frequencyMap := frequencyMap[words[i] := Get(frequencyMap, words[i]) + 1];
    }
    assert words[..|words|] == words;
    matchedSkills, missingSkills := [], [];
    for j := 0 to |requiredSkills|
      invariant matchedSkills == Matched(requiredSkills[..j], words)
      invariant missingSkills == Missing(requiredSkills[..j], words)
    {
      var skill := requiredSkills[j];
      assert requiredSkills[..j + 1][..j] == requiredSkills[..j];
      AddCountsCounts(map[], words, Lower(skill));
      if Lower(skill) in frequencyMap {
        matchedSkills := matchedSkills + [skill];
      } else {
        missingSkills := missingSkills + [skill];
      }
    }
    assert requiredSkills[..|requiredSkills|] == requiredSkills;
    keywordCount := |words|;
  }

  /**
   * The two lists partition the required skills: a skill is matched iff its
   * lower-case form is one of the words, missing iff it is not, and together
   * they hold every required skill exactly as often as it was given.
   */
  lemma MatchPartitions(requiredSkills: seq<string>, words: seq<string>, skill: string)
    ensures skill in Matched(requiredSkills, words) <==> skill in requiredSkills && Lower(skill) in words
    ensures skill in Missing(requiredSkills, words) <==> skill in requiredSkills && Lower(skill) !in words
    ensures !(skill in Matched(requiredSkills, words) && skill in Missing(requiredSkills, words))
    ensures multiset(Matched(requiredSkills, words)) + multiset(Missing(requiredSkills, words)) == multiset(requiredSkills)
  {
    var p := (s: string) => Lower(s) in words;
    var q := (s: string) => Lower(s) !in words;
    FilterMembers(requiredSkills, p, skill);
    FilterMembers(requiredSkills, q, skill);
    FilterSplits(requiredSkills, p, q);
  }
}
