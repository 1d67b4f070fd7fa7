/** The two catalogs the site hard-codes, and what the filter makes of them. */
module Site {
  import opened Seqs
  import opened Order
  import opened Text
  import opened Catalog

  function SmartHome(): Project {
    Project(1, "Smart Home Energy Monitor", "ESP32 + CT sensors + dashboard.",
            ["IoT", "Embedded", "Stm32"], Media(Image, None))
  }

  function Quadcopter(): Project {
    Project(2, "Quadcopter Flight Controller", "PID tuning & telemetry.",
            ["Robotics", "Control", "C++"], Media(Video, None))
  }

  function DefectDetector(): Project {
    Project(3, "ML Defect Detector", "Vision model for surface defects.",
            ["ML", "Vision", "Python"], Media(Image, None))
  }

  function KeywordSpotting(): Project {
    Project(4, "Edge Audio Keyword Spotting", "TinyML on microcontrollers.",
            ["ML", "Embedded"], Media(Video, None))
  }

  function Projects(): seq<Project> {
    [SmartHome(), Quadcopter(), DefectDetector(), KeywordSpotting()]
  }

  function PidPost(): Post {
    Post(1, "Building a PID Loop from Scratch", "2025-03-02", ["Control", "Robotics"],
         "How I tuned a quadcopter PID using step response and ZN heuristics.", 6)
  }

  function PowerPost(): Post {
    Post(2, "ESP32 Power Profiling", "2025-01-15", ["IoT", "Embedded"],
         "Measuring deep-sleep vs active current and optimizing wake windows.", 5)
  }

  function TinyMLPost(): Post {
    Post(3, "TinyML Keyword Spotting", "2024-11-20", ["ML", "Audio"],
         "Datasets, MFCC, and quantization tricks for microcontrollers.", 7)
  }

  function Posts(): seq<Post> {
    [PidPost(), PowerPost(), TinyMLPost()]
  }

  // ---------------------------------------------------------------------

  /** The Projects buttons, in the order they are shown. */
  lemma ProjectButtons()
    ensures ProjectTags(Projects()) ==
            ["C++", "Control", "Embedded", "IoT", "ML", "Python", "Robotics", "Stm32", "Vision"]
  {
    var expected := ["C++", "Control", "Embedded", "IoT", "ML", "Python", "Robotics", "Stm32", "Vision"];
    var flat := FlatProjectTags(Projects());
    assert flat == ["IoT", "Embedded", "Stm32", "Robotics", "Control", "C++",
                    "ML", "Vision", "Python", "ML", "Embedded"];
    VocabularySpec(flat);
    AscendingFromNeighbours(expected);
    AscendingUnique(expected, ProjectTags(Projects()));
  }

  /** The Blog buttons, in the order they are shown. */
  lemma PostButtons()
    ensures PostTags(Posts()) == ["Audio", "Control", "Embedded", "IoT", "ML", "Robotics"]
  {
    var expected := ["Audio", "Control", "Embedded", "IoT", "ML", "Robotics"];
    var flat := FlatPostTags(Posts());
    assert flat == ["Control", "Robotics", "IoT", "Embedded", "ML", "Audio"];
    VocabularySpec(flat);
    AscendingFromNeighbours(expected);
    AscendingUnique(expected, PostTags(Posts()));
  }

  /** Selecting narrows by AND: "ML" lists two projects, "ML" with
      "Embedded" only the one carrying both, and a tag no project has none. */
  lemma ProjectScenarios()
    ensures FilterProjects(Projects(), []) == Projects()
    ensures FilterProjects(Projects(), ["ML"]) == [DefectDetector(), KeywordSpotting()]
    ensures FilterProjects(Projects(), ["ML", "Embedded"]) == [KeywordSpotting()]
    ensures FilterProjects(Projects(), ["Audio"]) == []
  {
    assert HasAllTags(KeywordSpotting().tags, ["ML", "Embedded"]);
    assert "ML" !in SmartHome().tags && "ML" !in Quadcopter().tags;
    assert "Embedded" !in DefectDetector().tags;
    assert !HasAllTags(SmartHome().tags, ["ML", "Embedded"]) by {
      assert ["ML", "Embedded"][0] == "ML";
    }
    assert !HasAllTags(Quadcopter().tags, ["ML"]) by {
      assert ["ML"][0] == "ML";
    }
    assert !HasAllTags(DefectDetector().tags, ["ML", "Embedded"]) by {
      assert ["ML", "Embedded"][1] == "Embedded";
    }
    FilterProjectsUnknownTag(Projects(), ["Audio"], "Audio");
  }

  /** The PID post's title holds "PID" at index 11. */
  lemma PidPostMatches()
    ensures PostMatches(PidPost(), "PID", [])
  {
    var raw := SearchText(PidPost());
    var text := Lower(raw);
    assert raw[11] == 'P' && raw[12] == 'I' && raw[13] == 'D';
    assert text[11..14] == [LowerChar(raw[11]), LowerChar(raw[12]), LowerChar(raw[13])] == "pid";
    assert Lower("PID") == "pid";
    assert OccursAt(text, Lower("PID"), 11);
    ContainsAt(text, Lower("PID"));
  }

  /** In a catalog holding the PID post, such as the site's, the query "PID"
      finds that post whatever its case. */
  lemma PidQuery(posts: seq<Post>)
    requires PidPost() in posts
    ensures PidPost() in FilterPosts(posts, "PID", [])
    ensures FilterPosts(posts, "PID", []) == FilterPosts(posts, "pid", [])
  {
    PidPostMatches();
    assert Lower("PID") == Lower("pid");
    FilterPostsCaseInsensitive(posts, "PID", "pid", []);
    FilterMembers(posts, PostMatcher("PID", []));
  }

  /** With an empty query, selecting "Audio" lists only the TinyML post. */
  lemma AudioTag()
    ensures FilterPosts(Posts(), "", ["Audio"]) == [TinyMLPost()]
  {
    var posts := Posts();
    var keep := PostMatcher("", ["Audio"]);
    assert Lower("") == "";
    ContainsTrivial(Lower(SearchText(posts[0])));
    ContainsTrivial(Lower(SearchText(posts[1])));
    ContainsTrivial(Lower(SearchText(posts[2])));
    assert ["Audio"][0] == "Audio";
    assert !keep(posts[0]) && !keep(posts[1]) && keep(posts[2]);
    assert posts[1..][1..] == [posts[2]];
  }
}
