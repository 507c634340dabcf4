/** The PM2.5 grade of a level and the colour the summary table shows for a grade. */
module Grading {

  const Good := "좋음"
  const Moderate := "보통"
  const Bad := "나쁨"
  const VeryBad := "매우나쁨"

  /** `pm25_grade`: thresholds at 15, 35 and 75, each bound belonging to the milder grade. */
  function Pm25Grade(v: real): (g: string)
    ensures g == Good <==> v <= 15.0
    ensures g == Moderate <==> 15.0 < v <= 35.0
    ensures g == Bad <==> 35.0 < v <= 75.0
    ensures g == VeryBad <==> 75.0 < v
  {
    if v <= 15.0 then Good
    else if v <= 35.0 then Moderate
    else if v <= 75.0 then Bad
    else VeryBad
  }

  /** How severe a grade is, from 0 (good) to 3 (very bad). */
  function Severity(g: string): nat {
    if g == Good then 0 else if g == Moderate then 1 else if g == Bad then 2 else 3
  }

  /** A higher level never gets a milder grade. */
  lemma GradeMonotone(v: real, w: real)
    requires v <= w
    ensures Severity(Pm25Grade(v)) <= Severity(Pm25Grade(w))
  {
  }

  /** `pm25_color`'s table of grade colours. */
  const GradeColors: map<string, string> :=
    map[Good := "#4CAF50", Moderate := "#2196F3", Bad := "#FF9800", VeryBad := "#F44336"]

  /** `pm25_color`: the grade's colour, or "gray" for a string that is not a grade. */
  function Pm25Color(g: string): (c: string)
    ensures g == Good ==> c == "#4CAF50"
    ensures g == Moderate ==> c == "#2196F3"
    ensures g == Bad ==> c == "#FF9800"
    ensures g == VeryBad ==> c == "#F44336"
    ensures g != Good && g != Moderate && g != Bad && g != VeryBad ==> c == "gray"
  {
    if g in GradeColors then GradeColors[g] else "gray"
  }

  /** Every level gets a real colour, and levels of different grades get different colours. */
  lemma ColorsDistinguishGrades(v: real, w: real)
    ensures Pm25Color(Pm25Grade(v)) != "gray"
    ensures Pm25Grade(v) != Pm25Grade(w) ==> Pm25Color(Pm25Grade(v)) != Pm25Color(Pm25Grade(w))
  {
  }
}
