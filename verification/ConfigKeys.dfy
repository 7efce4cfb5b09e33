/**
 The table of dict-valued configuration keys, and that start-up as it is called
 satisfies what the theorems about it ask of the table.
 */
module ConfigKeys {
  import opened Prelude
  import opened ConfigTree
  import opened ConfigStartup

  /** `DICT_CONFIG_KEY_ALIASES`, with `API_CONFIG_KEYS` marked. */
  const DictConfigKeys: seq<Namespace> := [
    Namespace("openai.api_configs", ["OPENAI_API_CONFIGS"], true),
    Namespace("ollama.api_configs", ["OLLAMA_API_CONFIGS"], true),
    Namespace("rag.mineru_params", ["MINERU_PARAMS"], false),
    Namespace("rag.docling_params", ["DOCLING_PARAMS"], false),
    Namespace("web.search.linkup_search_params", ["LINKUP_SEARCH_PARAMS"], false),
    Namespace("image_generation.automatic1111.api_params", ["AUTOMATIC1111_PARAMS"], false),
    Namespace("image_generation.openai.params", ["IMAGES_OPENAI_API_PARAMS"], false),
    Namespace("audio.tts.openai.params", ["AUDIO_TTS_OPENAI_PARAMS"], false),
    Namespace("models.default_metadata", ["DEFAULT_MODEL_METADATA"], false),
    Namespace("models.default_params", ["DEFAULT_MODEL_PARAMS"], false),
    Namespace("user.permissions", ["USER_PERMISSIONS"], false)]

  lemma {:induction false} UnderMeans(key: string, prefix: string)
    ensures IsUnder(key, prefix) <==> |prefix| < |key| && key[|prefix|] == '.' && prefix <= key
  {
    var dotted := prefix + ".";
    assert dotted[|prefix|] == '.';
    assert forall i :: 0 <= i < |prefix| ==> dotted[i] == prefix[i];
  }

  lemma {:induction false} InNamespaceMeans(ns: Namespace, key: string)
    requires |ns.aliases| == 1
    ensures InNamespace(ns, key) <==> IsUnder(key, ns.key) || IsUnder(key, ns.aliases[0])
  {
    var names := [ns.key] + ns.aliases;
    assert names[1..] == ns.aliases && ns.aliases[1..] == [];
    assert FragmentOf(ns.aliases, key).Some? <==> IsUnder(key, ns.aliases[0]);
  }

  /** The first letter of the i-th key. */
  function Letter(i: nat): char
    requires i < |DictConfigKeys|
  {
    "oorrwiiammu"[i]
  }

  /** Aliases begin with capitals. */
  lemma {:induction false} Letters(i: nat)
    requires i < |DictConfigKeys|
    ensures
      var ns := DictConfigKeys[i];
      && |ns.key| > 0 && ns.key[0] == Letter(i)
      && |ns.aliases| == 1 && |ns.aliases[0]| > 0 && ns.aliases[0][0] < 'a'
  {
  }

  lemma {:induction false} DifferAt(a: string, b: string, n: nat)
    requires n < |a| && n < |b| && a[n] != b[n]
    ensures a != b && !IsUnder(a, b) && !IsUnder(b, a)
  {
    UnderMeans(a, b);
    UnderMeans(b, a);
  }

  lemma {:induction false} Twins(i: nat, j: nat)
    requires i < j < |DictConfigKeys| && Letter(i) == Letter(j)
    ensures
      var a, b := DictConfigKeys[i].key, DictConfigKeys[j].key;
      a != b && !IsUnder(a, b) && !IsUnder(b, a)
  {
    DifferAt(DictConfigKeys[i].key, DictConfigKeys[j].key, if i == 0 then 1 else if i == 2 then 4 else if i == 5 then 17 else 15);
  }

  /** The keys differ, and none lies inside the namespace of any. */
  lemma {:induction false} TableIsIndependent()
    ensures Independent(DictConfigKeys)
  {
    forall i, j | 0 <= i < |DictConfigKeys| && 0 <= j < |DictConfigKeys|
      ensures !InNamespace(DictConfigKeys[j], DictConfigKeys[i].key) && (i < j ==> DictConfigKeys[i].key != DictConfigKeys[j].key)
    {
      Letters(i);
      Letters(j);
      var key, ns := DictConfigKeys[i].key, DictConfigKeys[j];
      InNamespaceMeans(ns, key);
      UnderMeans(key, ns.key);
      UnderMeans(key, ns.aliases[0]);
      if key[0] == ns.key[0] {
        if i < j { Twins(i, j); } else if j < i { Twins(j, i); }
      }
    }
  }

  /** The call of start-up fits the table: all that is asked of the defaults is that
      none lies under the old prefix or inside a namespace. */
  lemma {:induction false} StartUpFitsIff(defaults: Rows)
    ensures Compatible("rag.web", "web", DictConfigKeys, defaults) <==>
      && (forall k :: k in defaults ==> !IsUnder(k, "rag.web"))
      && (forall i, k :: 0 <= i < |DictConfigKeys| && k in defaults ==> !InNamespace(DictConfigKeys[i], k))
  {
    TableIsIndependent();
    UnderMeans("rag.web.", "web");
    UnderMeans("web.", "rag.web");
    assert "web"[0] != "rag.web."[0];
    forall i | 0 <= i < |DictConfigKeys| ensures !IsUnder(DictConfigKeys[i].key, "rag.web") {
      var key := DictConfigKeys[i].key;
      Letters(i);
      UnderMeans(key, "rag.web");
      assert "rag.web"[0] == 'r' && "rag.web"[4] == 'w';
    }
  }
}
