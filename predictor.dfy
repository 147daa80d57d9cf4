/**
 * The placement predictor: a fixed decision tree over grade-point average,
 * number of skills and number of projects (utils/dsa.ts, feature 1).
 */
module Predictor {
  import opened Types

  /**
   * The decision tree. Its contract gives, for each outcome, exactly the
   * inputs that reach it, and the three facts the tree is built around.
   */
  function PredictPlacementProbability(cgpa: real, skillsCount: int, projects: int): (p: PlacementProbability)
    ensures p == High <==>
      (cgpa >= 8.5 && (skillsCount >= 3 || projects >= 2)) ||
      (7.0 <= cgpa < 8.5 && skillsCount >= 4 && projects >= 2)
    ensures p == Low <==>
      (7.0 <= cgpa < 8.5 && skillsCount < 2) ||
      (cgpa < 7.0 && !(projects >= 4 && skillsCount >= 3))
    ensures cgpa >= 8.5 ==> p != Low
    ensures cgpa < 7.0 ==> p != High
    ensures cgpa >= 8.5 && skillsCount >= 3 ==> p == High
  {
    if cgpa >= 8.5 then
      if skillsCount >= 3 then High
      else if projects >= 2 then High else Medium
    else if cgpa >= 7.0 then
      if skillsCount >= 4 && projects >= 2 then High
      else if skillsCount >= 2 then Medium
      else Low
    else
      if projects >= 4 && skillsCount >= 3 then Medium else Low
  }

  /**
   * The tree is not monotone in the grade: a 7.0 student with four skills
   * and two projects is rated High, a 8.5 student with two skills and one
   * project only Medium.
   */
  lemma NotMonotoneInGrade()
    ensures PredictPlacementProbability(7.0, 4, 2) == High
    ensures PredictPlacementProbability(8.5, 2, 1) == Medium
  {
  }
}
