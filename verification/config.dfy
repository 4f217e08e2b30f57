/**
 * The fixed configuration of the pipeline: the taxonomy of categories and
 * their search queries, the attribute lists and column prefixes that lay out
 * every collected row, and the names of the columns the other stages read.
 */
module Config {
  import opened Frames

  /** A taxonomy category: its label and its search queries, in order. */
  datatype Category = Category(name: string, queries: seq<string>)

  const Privacy := "privacy"
  const Fairness := "fairness"
  const Transparency := "transparency"
  const Misuse := "misuse"
  const Sustainability := "sustainability"
  /** Declared as a category label, but the taxonomy has no entry for it. */
  const RiskAssessment := "risk assessment"
  const EthicsAndLegal := "Ethics of scale"

  /** The categories in the order the collector walks them. */
  const Taxonomy: seq<Category> := [
    Category(Privacy, [
      "privacy",
      "data privacy",
      "data protection",
      "differential privacy",
      "privacy attack",
      "privacy protection",
      "information security"
    ]),
    Category(Fairness, [
      "fairness",
      "algorithmic bias",
      "bias in AI",
      "gender bias",
      "ethnicity bias",
      "sexual orientation bias",
      "disability",
      "parity",
      "equality",
      "fairness learning"
    ]),
    Category(Transparency, [
      "ai explainability",
      "Explainable AI",
      "AI interpretability",
      "Model interpretability",
      "transparency AI",
      "model explainability",
      "transparency machine learning"
    ]),
    Category(Misuse, [
      "AI misuse",
      "Adversarial Attacks",
      "Deep Fakes",
      "Fake News",
      "Arming Image Generation",
      "Machine Learning Model Misuse",
      "Language Model misuse",
      "Prompt engineering",
      "AI Safety"
    ]),
    Category(Sustainability, [
      "AI sustainability",
      "Sustainable AI",
      "AI for Climate",
      "AI carbon emission",
      "ai power consumption",
      "machine learning sustainability"
    ]),
    Category(EthicsAndLegal, [
      "Ethics of scale AI",
      "AI regulation",
      "AI Robots rights",
      "AI Legality",
      "ethics ai"
    ])
  ]

  /** One entity level of a collected row: its column prefix and its attributes, in column order. */
  datatype Level = Level(prefix: string, attributes: seq<string>)

  const Repository := Level("repo_", [
    "id",
    "full_name",
    "stargazers_count",
    "watchers_count",
    "description",
    "topics",
    "forks_count",
    "language",
    "visibility",
    "subscribers_count",
    "open_issues_count",
    "created_at",
    "last_modified",
    "has_projects",
    "has_wiki",
    "has_downloads",
    "size",
    "raw_data"
  ])

  const Owner := Level("owner_", [
    "id",
    "name",
    "login",
    "type",
    "bio",
    "company",
    "role",
    "email",
    "followers",
    "following",
    "location",
    "total_private_repos",
    "public_repos",
    "team_count",
    "twitter_username",
    "created_at",
    "updated_at",
    "raw_data"
  ])

  const Organization := Level("orga_", [
    "id",
    "name",
    "login",
    "type",
    "description",
    "company",
    "email",
    "followers",
    "following",
    "location",
    "total_private_repos",
    "public_repos",
    "collaborators",
    "created_at",
    "updated_at",
    "blog",
    "raw_data"
  ])

  /** The three levels of a row, in the order their parts appear. */
  datatype Layout = Layout(repository: Level, owner: Level, organization: Level)

  const GithubData := Layout(Repository, Owner, Organization)

  /** The named columns, as `C_*` spells them: a level prefix glued to an attribute. */
  const RepositoryIdColumn := "repo_id"
  const RepositoryNameColumn := "repo_full_name"
  const OrganizationIdColumn := "orga_id"
  const OrganizationNameColumn := "orga_name"
  const OrganizationLoginColumn := "orga_login"
  const OwnerIdColumn := "owner_id"
  const OwnerNameColumn := "owner_name"
  const OwnerLoginColumn := "owner_login"
  const RepositoryStarsColumn := "repo_stargazers_count"
  const RepositoryLastModifiedColumn := "repo_last_modified"

  /** The column names of one level: its prefix glued to each attribute. */
  function LevelColumns(l: Level): (names: seq<string>)
    ensures |names| == |l.attributes|
    ensures forall i :: 0 <= i < |names| ==> names[i] == l.prefix + l.attributes[i]
  {
    seq(|l.attributes|, i requires 0 <= i < |l.attributes| => l.prefix + l.attributes[i])
  }

  /** Distinct attributes give distinct column names within a level. */
  lemma LevelColumnsDistinct(l: Level)
    requires Distinct(l.attributes)
    ensures Distinct(LevelColumns(l))
  {
    var names := LevelColumns(l);
    forall i, j | 0 <= i < j < |names| ensures names[i] != names[j] {
      assert names[i][|l.prefix|..] == l.attributes[i];
      assert names[j][|l.prefix|..] == l.attributes[j];
    }
  }

  /** The attribute lists hold 18, 18 and 17 names, with no name twice in a list. */
  lemma AttributeLists()
    ensures |Repository.attributes| == 18 && |Owner.attributes| == 18 && |Organization.attributes| == 17
    ensures Distinct(Repository.attributes) && Distinct(Owner.attributes) && Distinct(Organization.attributes)
  {
    RepositoryAttributesDistinct();
    OwnerAttributesDistinct();
    OrganizationAttributesDistinct();
  }

  lemma RepositoryAttributesDistinct()
    ensures Distinct(Repository.attributes)
  {
  }

  lemma OwnerAttributesDistinct()
    ensures Distinct(Owner.attributes)
  {
  }

  lemma OrganizationAttributesDistinct()
    ensures Distinct(Organization.attributes)
  {
  }

  /** "id" leads every level. */
  lemma IdLeadsEveryLevel()
    ensures Repository.attributes[0] == "id" && Owner.attributes[0] == "id" && Organization.attributes[0] == "id"
  {
  }

  /** No prefix begins another: "repo_", "owner_" and "orga_" are pairwise incomparable. */
  lemma PrefixesIncomparable()
    ensures !(Repository.prefix <= Owner.prefix) && !(Owner.prefix <= Repository.prefix)
    ensures !(Repository.prefix <= Organization.prefix) && !(Organization.prefix <= Repository.prefix)
    ensures !(Owner.prefix <= Organization.prefix) && !(Organization.prefix <= Owner.prefix)
  {
    assert Repository.prefix[0] == 'r' && Owner.prefix[0] == 'o' && Organization.prefix[0] == 'o';
    assert Owner.prefix[1] == 'w' && Organization.prefix[1] == 'r';
  }

  /** Every named repository column is the repository prefix glued to one of its attributes. */
  lemma RepositoryColumnsNamed()
    ensures RepositoryIdColumn == Repository.prefix + Repository.attributes[0] == LevelColumns(Repository)[0]
    ensures RepositoryNameColumn == Repository.prefix + Repository.attributes[1] == LevelColumns(Repository)[1]
    ensures RepositoryStarsColumn == Repository.prefix + Repository.attributes[2] == LevelColumns(Repository)[2]
    ensures RepositoryLastModifiedColumn == Repository.prefix + Repository.attributes[12] == LevelColumns(Repository)[12]
  {
    assert Repository.attributes[12] == "last_modified";
  }

  /** Every named owner column is the owner prefix glued to one of its attributes. */
  lemma OwnerColumnsNamed()
    ensures OwnerIdColumn == Owner.prefix + Owner.attributes[0] == LevelColumns(Owner)[0]
    ensures OwnerNameColumn == Owner.prefix + Owner.attributes[1] == LevelColumns(Owner)[1]
    ensures OwnerLoginColumn == Owner.prefix + Owner.attributes[2] == LevelColumns(Owner)[2]
  {
  }

  /** Every named organization column is the organization prefix glued to one of its attributes. */
  lemma OrganizationColumnsNamed()
    ensures OrganizationIdColumn == Organization.prefix + Organization.attributes[0] == LevelColumns(Organization)[0]
    ensures OrganizationNameColumn == Organization.prefix + Organization.attributes[1] == LevelColumns(Organization)[1]
    ensures OrganizationLoginColumn == Organization.prefix + Organization.attributes[2] == LevelColumns(Organization)[2]
  {
  }

  /**
   * Six categories, each with between one and ten queries (fairness has
   * exactly ten); "risk assessment" labels none of them.
   */
  lemma TaxonomyShape()
    ensures |Taxonomy| == 6
    ensures forall c :: c in Taxonomy ==> 0 < |c.queries| <= 10
    ensures Taxonomy[1].name == Fairness && |Taxonomy[1].queries| == 10
    ensures forall c :: c in Taxonomy ==> c.name != RiskAssessment
  {
  }
}
