/** The sentiment-drift demo: two topics, each with four quarters of management commentary. Choosing
    a topic shows its quarters and clears the chosen quarter; clicking a quarter toggles it and
    shows that quarter's quote. Sentiments are drawn with a colour and an icon. */
module SentimentDrift {
  import opened Prelude

  datatype QuarterData = QuarterData(quarter: string, sentiment: string, quote: string, speaker: string,
                                     keywords: seq<string>)

  datatype Topic = Topic(id: string, name: string, quarters: seq<QuarterData>)

  const Topics: seq<Topic> := [
    Topic("overseas", "海外扩产", [
      QuarterData("Q1", "positive", "我们将不计代价地推进海外产能建设，欧洲工厂预计Q2投产。", "CEO", ["不计代价", "加速推进", "全面出击"]),
      QuarterData("Q2", "positive", "海外扩产进展顺利，匈牙利工厂已经开始试生产。", "CEO", ["进展顺利", "按计划", "积极推进"]),
      QuarterData("Q3", "neutral", "我们会根据市场需求，稳健地推进海外产能布局。", "CEO", ["稳健推进", "根据需求", "优化节奏"]),
      QuarterData("Q4", "negative", "考虑到当前的市场环境，我们会更加审慎地评估海外投资。", "CEO", ["审慎评估", "降本增效", "优化投入"])
    ]),
    Topic("pricewar", "价格战", [
      QuarterData("Q1", "positive", "我们有信心在价格竞争中保持优势，规模效应会持续显现。", "CFO", ["有信心", "保持优势", "规模效应"]),
      QuarterData("Q2", "neutral", "市场竞争确实激烈，但我们的成本控制能力在行业内领先。", "CFO", ["竞争激烈", "成本控制", "行业领先"]),
      QuarterData("Q3", "neutral", "价格压力依然存在，我们会通过技术创新来维持毛利率。", "CFO", ["价格压力", "技术创新", "维持毛利"]),
      QuarterData("Q4", "negative", "行业价格战比预期更加激烈，短期内毛利率会承受一定压力。", "CFO", ["超预期", "承受压力", "短期承压"])
    ])
  ]

  // ---------------------------------------------------------------------------------------------
  // Sentiment colour and icon

  /** getSentimentColor: a colour class for every string, grey for anything unrecognised. */
  function SentimentColor(sentiment: string): (r: string)
    ensures r in {"bg-emerald-500", "bg-amber-500", "bg-rose-500", "bg-zinc-500"}
    ensures r == "bg-emerald-500" <==> sentiment == "positive"
    ensures r == "bg-amber-500" <==> sentiment == "neutral"
    ensures r == "bg-rose-500" <==> sentiment == "negative"
    ensures r == "bg-zinc-500" <==> sentiment !in {"positive", "neutral", "negative"}
  {
    match sentiment
    case "positive" => "bg-emerald-500"
    case "neutral" => "bg-amber-500"
    case "negative" => "bg-rose-500"
    case _ => "bg-zinc-500"
  }

  datatype Icon = TrendingUp | Minus | TrendingDown

  /** getSentimentIcon: an icon for the three known sentiments, `null` for anything else. */
  function SentimentIcon(sentiment: string): (r: Option<Icon>)
    ensures r == Some(TrendingUp) <==> sentiment == "positive"
    ensures r == Some(Minus) <==> sentiment == "neutral"
    ensures r == Some(TrendingDown) <==> sentiment == "negative"
    ensures r.None? <==> sentiment !in {"positive", "neutral", "negative"}
  {
    match sentiment
    case "positive" => Some(TrendingUp)
    case "neutral" => Some(Minus)
    case "negative" => Some(TrendingDown)
    case _ => None
  }

  /** The icon is missing exactly when the colour is the fallback grey, and the three known
      sentiments are told apart by colour and by icon alike. */
  lemma ColorAndIconAgree(a: string, b: string)
    ensures SentimentIcon(a).None? <==> SentimentColor(a) == "bg-zinc-500"
    ensures SentimentIcon(a).Some? && SentimentIcon(b).Some? ==>
              (SentimentColor(a) == SentimentColor(b) <==> a == b) &&
              (SentimentIcon(a) == SentimentIcon(b) <==> a == b)
  {
  }

  // ---------------------------------------------------------------------------------------------
  // Quote lookup

  /** `topics.find(t => t.id === topicId)?.quarters.find(q => q.quarter === quarter)?.quote`:
      the quote of the first quarter labelled `quarter` in the first topic with id `topicId`. */
  function LookupQuote(topics: seq<Topic>, topicId: string, quarter: string): (r: Option<string>)
    ensures r.Some? ==> exists i, j :: 0 <= i < |topics| && topics[i].id == topicId &&
                                      0 <= j < |topics[i].quarters| &&
                                      topics[i].quarters[j].quarter == quarter &&
                                      r.value == topics[i].quarters[j].quote
    ensures (forall i :: 0 <= i < |topics| ==> topics[i].id != topicId) ==> r.None?
  {
    match Find(topics, (t: Topic) => t.id == topicId)
    case None => None
    case Some(t) =>
      match Find(t.quarters, (q: QuarterData) => q.quarter == quarter)
      case None => None
      case Some(q) => Some(q.quote)
  }

  /** The quote panel: drawn only while both a topic and a quarter are chosen. */
  function ShownQuote(selectedTopic: Option<string>, selectedQuarter: Option<string>): (r: Option<string>)
    ensures r.Some? ==> Truthy(selectedTopic) && Truthy(selectedQuarter)
  {
    if Truthy(selectedTopic) && Truthy(selectedQuarter) then
      LookupQuote(Topics, selectedTopic.value, selectedQuarter.value)
    else None
  }

  /** Topic ids are distinct and so are the quarter labels within each topic. */
  predicate DistinctKeys(topics: seq<Topic>) {
    && (forall i, j :: 0 <= i < j < |topics| ==> topics[i].id != topics[j].id)
    && (forall i :: 0 <= i < |topics| ==>
          forall j, k :: 0 <= j < k < |topics[i].quarters| ==>
            topics[i].quarters[j].quarter != topics[i].quarters[k].quarter)
  }

  /** With distinct keys, every quarter of every topic shows its own quote. */
  lemma LookupFindsEachQuarter(topics: seq<Topic>, i: nat, j: nat)
    requires DistinctKeys(topics)
    requires i < |topics| && j < |topics[i].quarters|
    ensures LookupQuote(topics, topics[i].id, topics[i].quarters[j].quarter) ==
            Some(topics[i].quarters[j].quote)
  {
    var t := topics[i];
    var q := t.quarters[j];
    FindUnique(topics, (u: Topic) => u.id == t.id, i);
    FindUnique(t.quarters, (p: QuarterData) => p.quarter == q.quarter, j);
  }

  /** Both shipped topics label their quarters `Q1` to `Q4`, in order. */
  lemma ShippedQuarterLabels(i: nat)
    requires i < |Topics|
    ensures |Topics[i].quarters| == 4
    ensures forall j :: 0 <= j < 4 ==> Topics[i].quarters[j].quarter == ["Q1", "Q2", "Q3", "Q4"][j]
  {
  }

  /** The shipped topics have distinct keys, so choosing any of their quarters shows its quote. */
  lemma ShippedQuotes(i: nat, j: nat)
    requires i < |Topics| && j < |Topics[i].quarters|
    ensures ShownQuote(Some(Topics[i].id), Some(Topics[i].quarters[j].quarter)) ==
            Some(Topics[i].quarters[j].quote)
  {
    ShippedDistinctKeys();
    ShippedQuarterLabels(i);
    var id := Topics[i].id;
    var q := Topics[i].quarters[j].quarter;
    assert id == ["overseas", "pricewar"][i];
    assert q == ["Q1", "Q2", "Q3", "Q4"][j];
    assert Truthy(Some(id)) && Truthy(Some(q));
    LookupFindsEachQuarter(Topics, i, j);
  }

  lemma ShippedDistinctKeys()
    ensures DistinctKeys(Topics)
  {
    assert Topics[0].id == "overseas" && Topics[1].id == "pricewar";
    forall n | 0 <= n < |Topics|
      ensures forall j, k :: 0 <= j < k < |Topics[n].quarters| ==>
                Topics[n].quarters[j].quarter != Topics[n].quarters[k].quarter
    {
      ShippedQuarterLabels(n);
    }
  }

  // ---------------------------------------------------------------------------------------------
  // Selection

  /** handleQuarterClick's new value: the clicked quarter, or nothing if it was already chosen. */
  function ToggleQuarter(selected: Option<string>, quarter: string): (r: Option<string>)
    ensures r.None? <==> selected == Some(quarter)
    ensures r.Some? ==> r.value == quarter
  {
    if selected == Some(quarter) then None else Some(quarter)
  }

  /** Clicking a quarter twice gives back the earlier choice when that was nothing or this
      quarter; when another quarter was chosen, it leaves nothing chosen. */
  lemma ToggleQuarterTwice(selected: Option<string>, quarter: string)
    ensures ToggleQuarter(ToggleQuarter(selected, quarter), quarter) ==
            if selected == Some(quarter) then selected else None
    ensures ToggleQuarter(ToggleQuarter(selected, quarter), quarter) == selected <==>
            selected.None? || selected == Some(quarter)
  {
  }

  class SentimentDriftDemo {
    var selectedTopic: Option<string>
    var selectedQuarter: Option<string>

    constructor ()
      ensures selectedTopic == None && selectedQuarter == None
    {
      selectedTopic, selectedQuarter := None, None;
    }

    /** handleTopicClick: selects the topic and always clears the quarter. */
    method TopicClick(topicId: string)
      modifies this
      ensures selectedTopic == Some(topicId) && selectedQuarter == None
    {
      selectedTopic := Some(topicId);
      selectedQuarter := None;
    }

    /** handleQuarterClick: toggles the quarter, leaving the topic alone. */
    method QuarterClick(quarter: string)
      modifies this
      ensures selectedQuarter == ToggleQuarter(old(selectedQuarter), quarter)
      ensures selectedTopic == old(selectedTopic)
    {
      selectedQuarter := if selectedQuarter == Some(quarter) then None else Some(quarter);
    }
  }
}
