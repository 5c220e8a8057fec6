/**
 * lib/tags.ts: tagging a news item with the entries of a fixed vocabulary
 * that occur in its title or content, at most five, in vocabulary order.
 */
module NewsTags {
  import opened Seqs
  import opened Strings

  /** The vocabulary, in the order it is scanned. */
  const CommonTags: seq<string> := [
    "ai", "artificial intelligence", "machine learning", "deep learning",
    "neural networks", "llm", "gpt", "chatgpt", "openai", "anthropic",
    "technology", "startup", "research", "innovation", "automation",
    "robotics", "computer vision", "nlp", "data science", "algorithm",
    "blockchain", "cryptocurrency", "fintech", "cybersecurity", "privacy",
    "ethics", "regulation", "policy", "education", "healthcare",
    "climate", "sustainability", "energy", "transportation", "autonomous"
  ]

  const MaxTags: nat := 5

  /** The lower-cased title and content, joined by a space. */
  function TagText(title: string, content: string): string
  {
    Lower(title + " " + content)
  }

  function OccursIn(text: string): string -> bool
  {
    (tag: string) => Contains(text, Lower(tag))
  }

  /** The first `MaxTags` distinct entries of `vocab` that occur in `text`, in vocabulary order. */
  function TagsFrom(vocab: seq<string>, text: string): (r: seq<string>)
    ensures var u := Unique(Filter(vocab, OccursIn(text)));
      |r| == (if |u| < MaxTags then |u| else MaxTags) && r == u[..|r|]
    ensures |r| <= MaxTags && Distinct(r)
    ensures forall t :: t in r ==> t in vocab && Contains(text, Lower(t))
    ensures forall t :: t in vocab && Contains(text, Lower(t)) && t !in r ==> |r| == MaxTags
  {
    TakeOccurring(vocab, text);
    Take(Unique(Filter(vocab, OccursIn(text))), MaxTags)
  }

  /** The first five found entries are vocabulary entries that occur; an occurring entry left out means five were taken. */
  lemma TakeOccurring(vocab: seq<string>, text: string)
    ensures var r := Take(Unique(Filter(vocab, OccursIn(text))), MaxTags);
      (forall t :: t in r ==> t in vocab && Contains(text, Lower(t))) &&
      (forall t :: t in vocab && Contains(text, Lower(t)) && t !in r ==> |r| == MaxTags)
  {
    var found := Filter(vocab, OccursIn(text));
    var r := Take(Unique(found), MaxTags);
    assert forall t :: t in r ==> OccursIn(text)(t);
    assert forall t :: t in vocab && OccursIn(text)(t) ==> t in found;
  }

  /** `extractTags`: the occurring vocabulary entries, collected in a `Set`, then the first five. */
  function ExtractTags(title: string, content: string): seq<string>
  {
    TagsFrom(CommonTags, TagText(title, content))
  }

  /**
   * Tags keep vocabulary order: when an entry is returned, every earlier
   * entry that occurs in the text is returned too.
   */
  lemma TagsInVocabularyOrder(vocab: seq<string>, text: string, i: nat, j: nat)
    requires i < j < |vocab|
    requires Contains(text, Lower(vocab[i]))
    requires vocab[j] !in vocab[..j]
    requires vocab[j] in TagsFrom(vocab, text)
    ensures vocab[i] in TagsFrom(vocab, text)
  {
    assert OccursIn(text)(vocab[i]);
    FirstMatchesKept(vocab, OccursIn(text), MaxTags, i, j);
  }

  /**
   * Tags come in vocabulary order: a tag listed before another occurs in the
   * vocabulary before every occurrence of the later one.
   */
  lemma TagsFollowVocabulary(vocab: seq<string>, text: string, i: nat, j: nat, k: nat)
    requires i < j < |TagsFrom(vocab, text)| && k < |vocab|
    requires vocab[k] == TagsFrom(vocab, text)[j]
    ensures TagsFrom(vocab, text)[i] in vocab[..k]
  {
    UniqueFilterOrder(vocab, OccursIn(text), i, j, k);
  }

  /** With no vocabulary entry in the text there are no tags. */
  lemma NoTagsWithoutMatches(vocab: seq<string>, text: string)
    requires forall t :: t in vocab ==> !Contains(text, Lower(t))
    ensures TagsFrom(vocab, text) == []
  {
    FilterNone(vocab, OccursIn(text));
  }
}
