/** The insight selector of src/services/geminiService.ts: a canned synthesis
    chosen by the number of logged activities. The random pick between the
    two mid-range variants is the parameter `pick`; the simulated latency is
    not modelled. */
module InsightSelector {
  import opened Types

  const DenseDay := Insight(
    "Your day is remarkably dense with activity. You've maintained a high-output rhythm, but the density suggests you might be nearing a cognitive threshold.",
    [ "Schedule a 'zero-input' window of 15 minutes to clear mental cache.",
      "Prioritize one high-impact task for the next hour and defer the rest.",
      "Ensure you're hydrating; high-density schedules often lead to neglected basics." ])

  const ConsistentFlow := Insight(
    "You've established a consistent and healthy flow. Your cadence between events shows intentionality and focus.",
    [ "This is your peak performance window. Tackle your hardest problem now.",
      "Document one small win from the morning to boost afternoon morale.",
      "Check your posture—reset your shoulders and neck before the next log." ])

  const BalancedStart := Insight(
    "A balanced start to the day. You are navigating between tasks with enough breathing room to maintain quality.",
    [ "Consider a short walk to consolidate the learning from your last task.",
      "Prepare your environment for the next transition.",
      "Reflect on if the current 'time' of these events matches your natural energy." ])

  const FormativeStage := Insight(
    "The day is still in its formative stages. This is the 'quiet before the storm'—a perfect time for strategic intent.",
    [ "Define the 'one thing' that would make today a success.",
      "Check in with your energy levels: Are you fueled for the afternoon?",
      "Set a reminder for a mindful transition into your next big block of work." ])

  /** The two mid-range variants, in the order `Math.floor(Math.random() * 2)` indexes them. */
  const BalancedVariants: seq<Insight> := [ConsistentFlow, BalancedStart]

  /** Every response the selector can give. */
  ghost predicate IsCanned(i: Insight)
  {
    i == DenseDay || i == ConsistentFlow || i == BalancedStart || i == FormativeStage
  }

  function AnalyzeActivities(activities: seq<Activity>, pick: nat): (r: Option<Insight>)
    requires pick < 2
    ensures r.None? <==> |activities| == 0
    ensures r.Some? ==> IsCanned(r.value) && |r.value.suggestions| == 3
  {
    if |activities| == 0 then None
    else
      var count := |activities|;
      if count >= 6 then Some(DenseDay)
      else if count >= 3 then Some(BalancedVariants[pick])
      else Some(FormativeStage)
  }

  /** Which response each activity count yields. */
  lemma AnalyzeThresholds(activities: seq<Activity>, pick: nat)
    requires pick < 2
    ensures |activities| >= 6 ==> AnalyzeActivities(activities, pick) == Some(DenseDay)
    ensures 3 <= |activities| < 6 ==>
      AnalyzeActivities(activities, pick) == Some(if pick == 0 then ConsistentFlow else BalancedStart)
    ensures 1 <= |activities| <= 2 ==> AnalyzeActivities(activities, pick) == Some(FormativeStage)
  {
  }

  /** The mid range really has two different answers, and only there does the pick matter. */
  lemma AnalyzePickMatters(activities: seq<Activity>)
    ensures (3 <= |activities| < 6) <==> AnalyzeActivities(activities, 0) != AnalyzeActivities(activities, 1)
  {
  }

  /** Only the number of activities is read: names, times and descriptions play no part. */
  lemma AnalyzeReadsOnlyCount(a: seq<Activity>, b: seq<Activity>, pick: nat)
    requires pick < 2 && |a| == |b|
    ensures AnalyzeActivities(a, pick) == AnalyzeActivities(b, pick)
  {
  }
}
