/** The learning-preferences settings section: one record of preferences,
    each handler a function from the previous record to the next. */
module LearningPreferences {
  import opened ListToggle

  datatype Preferences = Preferences(
    englishLevel: string,
    learningGoals: seq<string>,
    preferredTopics: seq<string>,
    conversationDifficulty: string)

  /** `handleLevelChange`: only the level changes. */
  function LevelChange(p: Preferences, level: string): (q: Preferences)
    ensures q.englishLevel == level
    ensures q.learningGoals == p.learningGoals && q.preferredTopics == p.preferredTopics
    ensures q.conversationDifficulty == p.conversationDifficulty
  {
    p.(englishLevel := level)
  }

  /** `handleDifficultyChange`: only the conversation difficulty changes. */
  function DifficultyChange(p: Preferences, difficulty: string): (q: Preferences)
    ensures q.conversationDifficulty == difficulty
    ensures q.englishLevel == p.englishLevel
    ensures q.learningGoals == p.learningGoals && q.preferredTopics == p.preferredTopics
  {
    p.(conversationDifficulty := difficulty)
  }

  /** `handleGoalToggle`: the goal's membership flips, every other goal
      keeps its membership, a new goal goes at the end, and nothing else in
      the record changes. */
  function GoalToggle(p: Preferences, goal: string): (q: Preferences)
    ensures goal in q.learningGoals <==> goal !in p.learningGoals
    ensures forall g :: g != goal ==> (g in q.learningGoals <==> g in p.learningGoals)
    ensures goal !in p.learningGoals ==> q.learningGoals == p.learningGoals + [goal]
    ensures q.englishLevel == p.englishLevel && q.preferredTopics == p.preferredTopics
    ensures q.conversationDifficulty == p.conversationDifficulty
  {
    p.(learningGoals := Toggle(p.learningGoals, goal))
  }

  /** `handleTopicToggle`: the same rules, applied to the topics. */
  function TopicToggle(p: Preferences, topic: string): (q: Preferences)
    ensures topic in q.preferredTopics <==> topic !in p.preferredTopics
    ensures forall t :: t != topic ==> (t in q.preferredTopics <==> t in p.preferredTopics)
    ensures topic !in p.preferredTopics ==> q.preferredTopics == p.preferredTopics + [topic]
    ensures q.englishLevel == p.englishLevel && q.learningGoals == p.learningGoals
    ensures q.conversationDifficulty == p.conversationDifficulty
  {
    p.(preferredTopics := Toggle(p.preferredTopics, topic))
  }

  /** The goals other than the toggled one keep their relative order. */
  lemma GoalToggleKeepsOrder(p: Preferences, goal: string)
    ensures RemoveAll(GoalToggle(p, goal).learningGoals, goal) == RemoveAll(p.learningGoals, goal)
  {
    ToggleKeepsOthersInOrder(p.learningGoals, goal);
  }

  /** Toggling a goal twice restores every goal's membership. */
  lemma GoalToggleTwice(p: Preferences, goal: string)
    ensures forall g :: g in GoalToggle(GoalToggle(p, goal), goal).learningGoals <==> g in p.learningGoals
    ensures goal !in p.learningGoals ==> GoalToggle(GoalToggle(p, goal), goal) == p
  {
    ToggleTwice(p.learningGoals, goal);
  }

  lemma TopicToggleKeepsOrder(p: Preferences, topic: string)
    ensures RemoveAll(TopicToggle(p, topic).preferredTopics, topic) == RemoveAll(p.preferredTopics, topic)
  {
    ToggleKeepsOthersInOrder(p.preferredTopics, topic);
  }

  lemma TopicToggleTwice(p: Preferences, topic: string)
    ensures forall t :: t in TopicToggle(TopicToggle(p, topic), topic).preferredTopics <==> t in p.preferredTopics
    ensures topic !in p.preferredTopics ==> TopicToggle(TopicToggle(p, topic), topic) == p
  {
    ToggleTwice(p.preferredTopics, topic);
  }
}
