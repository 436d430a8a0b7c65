/** The records the productivity views share, and the two reference tables
    every routine and progress view reads: the DevOps learning path and the
    weekday-indexed routine template. */
module Models {
  import opened Wrappers
  import opened Dates

  datatype TaskCategory =
    | DevOps | Project | Freelancing | OnlinePresence | AINews | Lead | Portfolio | Reflection

  datatype Priority = High | Medium | Low

  datatype NoteType =
    | AppIdea | SocialMedia | DevOps | Career | Improvement | AiAutomation | General

  /** A task of one day. An absent `isSubTask` reads as `false`, as every view
      reads it. */
  datatype Task = Task(
    id: string,
    title: string,
    description: Option<string>,
    category: TaskCategory,
    completed: bool,
    date: Date,
    isSubTask: bool,
    priority: Priority)

  /** A note, optionally attached to a task; DevOps notes may name a video and a
      position in it. */
  datatype Note = Note(
    id: string,
    taskId: Option<string>,
    noteType: NoteType,
    content: string,
    timestamp: Option<string>,
    videoName: Option<string>,
    createdAt: Instant)

  /** A video of the learning path; `duration` is in whole minutes. */
  datatype Video = Video(id: string, title: string, url: string, duration: int, category: string, order: int)

  /** How far the user got in one video. */
  datatype VideoProgress = VideoProgress(videoId: string, minutesWatched: int, completed: bool, lastWatched: Instant)

  /** One line of a weekday's routine. */
  datatype TemplateEntry = TemplateEntry(title: string, description: string, category: TaskCategory, priority: Priority)

  /** The ten videos of the DevOps learning path, in viewing order. */
  const LearningPath: seq<Video> := [
    Video("linux_fcc_labs", "Linux Crash Course for Beginners with Labs (freecodecamp.org)",
      "https://www.youtube.com/watch?v=6WatcfENsOU", 141, "Linux", 1),
    Video("networking_comptia", "CompTIA Network+ N10-009 Full Certification Course (PowerCert Animated Videos)",
      "https://www.youtube.com/watch?v=CY4hn70K3r8", 257, "Networking", 2),
    Video("git_fcc_2026", "Git & GitHub Crash Course for Beginners [2026] (freecodecamp.org)",
      "https://www.youtube.com/watch?v=mAFoROnOfHs", 81, "Git", 3),
    Video("bash_fcc_tut", "Bash Scripting Tutorial for Beginners (freecodecamp.org)",
      "https://www.youtube.com/watch?v=tK9Oc6AEnR4", 48, "Bash", 4),
    Video("docker_fcc_full", "Docker Tutorial for Beginners - Full DevOps Course (freecodecamp.org)",
      "https://www.youtube.com/watch?v=fqMOX6JJhGo", 130, "Docker", 5),
    Video("cicd_nana_basic", "GitHub Actions Tutorial - Concepts & Pipeline (TechWorld with Nana)",
      "https://www.youtube.com/watch?v=R8_veQiYBjI", 33, "CI/CD", 6),
    Video("aws_fcc_clf02", "AWS Certified Cloud Practitioner (CLF-C02) - Pass Exam (freecodecamp.org)",
      "https://www.youtube.com/watch?v=NhDYbskXRgc", 857, "AWS", 7),
    Video("terraform_fcc_dev", "Learn Terraform (and AWS) - Full Beginners Course (freecodecamp.org)",
      "https://www.youtube.com/watch?v=iRaai1IBlB0", 99, "Terraform", 8),
    Video("k8s_fcc_cka", "Kubernetes Course \U{2013} CKA Exam Prep (freecodecamp.org)",
      "https://www.youtube.com/watch?v=Fr9GqFwl6NM", 124, "Kubernetes", 9),
    Video("monitoring_vikas", "Master Grafana & Prometheus Fast! Crash Course (Vikas Jha)",
      "https://www.youtube.com/watch?v=hePmCMmekmo", 100, "Monitoring", 10)
  ]

  /** The Monday routine. */
  const MondayTemplate: seq<TemplateEntry> := [
    TemplateEntry("DevOps video 25-40 min + practice + notes",
      "Watch a focused DevOps tutorial, replicate the steps in your lab, and take notes on key commands or pitfalls.",
      TaskCategory.DevOps, High),
    TemplateEntry("AI news scan 15-20 min \U{2192} add to directory \U{2192} draft post ideas",
      "Quickly check feeds for new AI tools or agentic workflow updates. Add interesting ones to your directory and think of content ideas.",
      AINews, High),
    TemplateEntry("Plan main project/automation focus for the week",
      "Define the specific n8n automation or SaaS feature you will complete by Sunday. Set clear milestones.",
      Project, Medium),
    TemplateEntry("Review post ideas \U{2192} schedule posts for week",
      "Look at your idea backlog. Schedule at least 3 posts across X, LinkedIn, or Medium for the upcoming days.",
      OnlinePresence, Medium),
    TemplateEntry("X/Reddit engagement (2-3 replies)",
      "Reply thoughtfully to current discussions in the DevOps, AI, or SaaS communities to build presence.",
      OnlinePresence, Low)
  ]

  /** The Tuesday routine. */
  const TuesdayTemplate: seq<TemplateEntry> := [
    TemplateEntry("Project work (n8n / SaaS) 1-2h",
      "Deep work session on your primary project. Focus on logic building or UI implementation.",
      Project, High),
    TemplateEntry("Push updates to GitHub",
      "Commit your changes with clear messages. Maintain your streak and version history.",
      Project, High),
    TemplateEntry("Draft X/Medium post from project progress",
      "Share a screenshot or a lesson learned from today's build. Real-time building attracts more interest.",
      OnlinePresence, Medium),
    TemplateEntry("AI tool test \U{2192} notes/mini review",
      "Pick one tool from your scans. Test it for 10 minutes and write a quick pros/cons note.",
      AINews, Low),
    TemplateEntry("X/Reddit engagement (2-3 replies)",
      "Provide value in comment sections. Help people solve problems related to automation or DevOps.",
      OnlinePresence, Low)
  ]

  /** The Wednesday routine. */
  const WednesdayTemplate: seq<TemplateEntry> := [
    TemplateEntry("DevOps video 25-40 min + practice + notes",
      "Continue your learning path. Focus on practical implementation of infrastructure as code or CI/CD.",
      TaskCategory.DevOps, High),
    TemplateEntry("Run lead collection automation + manual leads",
      "Trigger your lead scrapers and spend 15 minutes manually finding high-quality freelance leads.",
      Lead, High),
    TemplateEntry("Send 3-5 proposals",
      "Write personalized proposals for the leads found. Focus on showcasing your automation expertise.",
      Freelancing, High),
    TemplateEntry("Engage online: reply 2-3 X/Reddit posts",
      "Maintain consistency in engagement. Look for people asking for automation or freelance help.",
      OnlinePresence, Medium)
  ]

  /** The Thursday routine. */
  const ThursdayTemplate: seq<TemplateEntry> := [
    TemplateEntry("Continue project (n8n / SaaS)",
      "Keep the momentum. Fix bugs or start the next sub-feature planned on Monday.",
      Project, High),
    TemplateEntry("GitHub push",
      "Daily commit. Ensure your repo reflects today's progress.",
      Project, High),
    TemplateEntry("Draft project-based post",
      "Create a thread or post about a specific technical challenge you solved in your project today.",
      OnlinePresence, Medium),
    TemplateEntry("Optional AI tool practice",
      "If you have extra energy, dive deeper into a new AI agent framework or automation node.",
      AINews, Low),
    TemplateEntry("X/Reddit engagement (2-3 replies)",
      "Strengthen relationships by replying to key influencers or active community members.",
      OnlinePresence, Low)
  ]

  /** The Friday routine. */
  const FridayTemplate: seq<TemplateEntry> := [
    TemplateEntry("DevOps video + practice + notes",
      "Wrap up the week's learning module. Ensure you can explain the core concept without looking at notes.",
      TaskCategory.DevOps, High),
    TemplateEntry("Weekly reflection draft (post/blog)",
      "Use the auto-generated summary to write a \"Week in Review\" post. Highlight wins and lessons.",
      Reflection, High),
    TemplateEntry("Portfolio update",
      "Add a new project screenshot, update a description, or refine a skill tag in your portfolio.",
      Portfolio, Medium),
    TemplateEntry("Freelance follow-ups",
      "Ping leads from Monday/Wednesday if they haven't replied. Be professional and brief.",
      Freelancing, Medium),
    TemplateEntry("X/Reddit engagement (2-3 replies)",
      "Final engagement pulse for the work week.",
      OnlinePresence, Low)
  ]

  /** The Saturday routine. */
  const SaturdayTemplate: seq<TemplateEntry> := [
    TemplateEntry("Send 3-5 proposals",
      "Batch process new opportunities for the coming week while competition is lower.",
      Freelancing, High),
    TemplateEntry("Review/tag leads",
      "Organize your CRM. Tag leads by potential value and niche for easier follow-ups.",
      Lead, Medium),
    TemplateEntry("Optional small project tweaks",
      "Do the non-essential but nice-to-have polishing on your projects.",
      Project, Low),
    TemplateEntry("Quick post/learning snippet",
      "Share a Saturday thought or a quick tip you picked up during the week.",
      OnlinePresence, Low),
    TemplateEntry("Check freelance messages",
      "Quick scan of Upwork/LinkedIn for any urgent weekend inquiries.",
      Freelancing, Medium)
  ]

  /** The Sunday routine. */
  const SundayTemplate: seq<TemplateEntry> := [
    TemplateEntry("Plan next week's focus",
      "Come up with the main project idea for the week and prepare the necessary resources or tools.",
      Project, Medium),
    TemplateEntry("AI news scan \U{2192} add post ideas",
      "Catch up on the latest AI trends and newsletters. Capture at least 2-3 content ideas for the week.",
      AINews, Medium),
    TemplateEntry("Portfolio check",
      "Quickly review your portfolio link, check for dead links, and ensure your latest work is highlighted.",
      Portfolio, Low),
    TemplateEntry("Optional light learning/side project",
      "Dive into a new tool or minor project feature only if you feel inspired. No pressure.",
      TaskCategory.DevOps, Low),
    TemplateEntry("Rest & recharge",
      "Completely disconnect from work. Focus on recovery to maintain long-term momentum.",
      OnlinePresence, Low)
  ]
  /** The names `getDay()` indexes, Sunday first. */
  const WeekdayNames: seq<string> :=
    ["Sunday", "Monday", "Tuesday", "Wednesday", "Thursday", "Friday", "Saturday"]

  /** `getCurrentWeekday()` for the day `d`. */
  function CurrentWeekday(d: Date): (name: string)
    requires Valid(d)
    ensures name in WeekdayNames
  {
    WeekdayNames[Weekday(d)]
  }

  /** `WEEKLY_TEMPLATE[weekday] || []`: the routine of a weekday, nothing for a
      name that is not a weekday. */
  function WeeklyTemplate(weekday: string): (entries: seq<TemplateEntry>)
    ensures weekday !in WeekdayNames ==> entries == []
  {
    match weekday
    case "Monday" => MondayTemplate
    case "Tuesday" => TuesdayTemplate
    case "Wednesday" => WednesdayTemplate
    case "Thursday" => ThursdayTemplate
    case "Friday" => FridayTemplate
    case "Saturday" => SaturdayTemplate
    case "Sunday" => SundayTemplate
    case _ => []
  }

  /** Sum of the durations of `videos`. */
  function TotalDuration(videos: seq<Video>): int
  {
    if |videos| == 0 then 0 else TotalDuration(videos[..|videos| - 1]) + videos[|videos| - 1].duration
  }

  /** The learning path has ten videos with distinct ids and positive durations,
      numbered 1..10 in list order. */
  lemma LearningPathShape()
    ensures |LearningPath| == 10
    ensures forall i :: 0 <= i < |LearningPath| ==> LearningPath[i].duration > 0 && LearningPath[i].order == i + 1
    ensures forall i, j :: 0 <= i < j < |LearningPath| ==> LearningPath[i].id != LearningPath[j].id
  {
  }

  /** The path is 1870 minutes long, so its total is never zero. */
  lemma LearningPathTotal()
    ensures TotalDuration(LearningPath) == 1870
  {
    assert TotalDuration(LearningPath[..1]) == 141 by { assert LearningPath[..1][..0] == LearningPath[..0]; }
    assert TotalDuration(LearningPath[..2]) == 398 by { assert LearningPath[..2][..1] == LearningPath[..1]; }
    assert TotalDuration(LearningPath[..3]) == 479 by { assert LearningPath[..3][..2] == LearningPath[..2]; }
    assert TotalDuration(LearningPath[..4]) == 527 by { assert LearningPath[..4][..3] == LearningPath[..3]; }
    assert TotalDuration(LearningPath[..5]) == 657 by { assert LearningPath[..5][..4] == LearningPath[..4]; }
    assert TotalDuration(LearningPath[..6]) == 690 by { assert LearningPath[..6][..5] == LearningPath[..5]; }
    assert TotalDuration(LearningPath[..7]) == 1547 by { assert LearningPath[..7][..6] == LearningPath[..6]; }
    assert TotalDuration(LearningPath[..8]) == 1646 by { assert LearningPath[..8][..7] == LearningPath[..7]; }
    assert TotalDuration(LearningPath[..9]) == 1770 by { assert LearningPath[..9][..8] == LearningPath[..8]; }
    assert TotalDuration(LearningPath[..10]) == 1870 by { assert LearningPath[..10][..9] == LearningPath[..9]; }
    assert LearningPath[..10] == LearningPath;
  }

  /** Every name `getCurrentWeekday` can return has a non-empty routine. */
  lemma TemplateEveryWeekday(d: Date)
    requires Valid(d)
    ensures |WeeklyTemplate(CurrentWeekday(d))| > 0
  {
  }

  /** The weekday names follow `getDay()`: 1970-01-01 was a Thursday and
      2024-01-01 a Monday. */
  lemma CurrentWeekdayKnownDays()
    ensures CurrentWeekday(Date(1970, 1, 1)) == "Thursday"
    ensures CurrentWeekday(Date(2024, 1, 1)) == "Monday"
  {
  }
}
