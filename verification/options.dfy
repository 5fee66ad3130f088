/** The converter's options (pkg/obsidian2logseq/convert_vault.go): one boolean, whether the
    given vault path already is the pages directory. */
module Options {

  datatype Config = Config(obsidianDirIsPages: bool)

  /** OptionObsidianDirIsPages, the only kind of option. */
  datatype Option = ObsidianDirIsPages(value: bool) {
    /** apply: overwrite the flag with the option's value. */
    function Apply(cfg: Config): (r: Config)
      ensures r.obsidianDirIsPages == value
    {
      cfg.(obsidianDirIsPages := value)
    }
  }

  /** The configuration the options fold to: the last option's value, false without one. */
  function ConfigOf(opts: seq<Option>): (cfg: Config)
    ensures opts == [] ==> !cfg.obsidianDirIsPages
    ensures opts != [] ==> cfg.obsidianDirIsPages == opts[|opts| - 1].value
  {
    if opts == [] then Config(false) else opts[|opts| - 1].Apply(ConfigOf(opts[..|opts| - 1]))
  }

  /** Options.Config: start from the zero configuration and apply the options in order. */
  method MakeConfig(opts: seq<Option>) returns (cfg: Config)
    ensures cfg == ConfigOf(opts)
    ensures cfg.obsidianDirIsPages <==> opts != [] && opts[|opts| - 1].value
  {
    cfg := Config(false);
    for i := 0 to |opts|
      invariant cfg == ConfigOf(opts[..i])
    {
      assert opts[..i + 1][..i] == opts[..i];
      cfg := opts[i].Apply(cfg);
    }
    assert opts[..|opts|] == opts;
  }

  /** Only the last option matters: options before it are overridden. */
  lemma {:induction false} LastOptionWins(earlier: seq<Option>, last: Option)
    ensures ConfigOf(earlier + [last]) == Config(last.value)
  {
    assert (earlier + [last])[..|earlier|] == earlier;
  }
}
