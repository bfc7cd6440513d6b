/** The static data: the initial progress record, the ordered mission and
    badge catalogs and the level threshold table, with the facts about them
    that the progress lemmas use. */
module Catalog {
  import opened Types

  /** The record a new installation starts from. */
  const InitialState: UserState := UserState(1, 0, [], [], "Guest_Engineer")

  const M001: Mission := Mission(
    "m001",
    "O Portal",
    "A chave de acesso está escondida onde o Sol nasce para um programador.",
    "Interceptamos uma página da web antiga que atua como um portal para a rede dos Arquitetos. Eles deixaram uma mensagem escondida para quem sabe olhar além da superfície. Inspecione o código-fonte e encontre a frase secreta.",
    Some("https://github.com/google-gemini/codex-treasure-hunt/tree/main/portal-01"),
    Easy,
    100,
    "o tempo esta a despertar",
    "Abra o link. Use \"Inspecionar Elemento\" ou \"Exibir Código Fonte\". Procure por comentários HTML <!-- -->.",
    1)

  const M002: Mission := Mission(
    "m002",
    "Sussurros Binários",
    "Traduza a transmissão numérica para a linguagem humana.",
    "O Portal nos forneceu uma sequência de números binários. É um protocolo básico de comunicação, mas essencial para entender como as máquinas falam. Decodifique a mensagem para revelar o próximo alvo.",
    Some("https://github.com/google-gemini/codex-treasure-hunt/blob/main/pista-02/transmission.txt"),
    Easy,
    150,
    "http",
    "Copie a sequência de 0s e 1s. Use uma ferramenta de tradução Binário para Texto (ASCII).",
    1)

  const M003: Mission := Mission(
    "m003",
    "O Fragmento Perdido",
    "Reconstrua a função de navegação corrompida.",
    "Recuperamos fragmentos de um script vital do sistema de navegação da nave. O código está quebrado em pedaços espalhados pelo repositório. Sua missão é montar a função JavaScript corretamente para restaurar os motores.",
    Some("https://github.com/google-gemini/codex-treasure-hunt/tree/main/fragment-hub"),
    Medium,
    300,
    "function soma(a,b){return a+b}",
    "A sintaxe correta de uma função requer a palavra chave function, parênteses para argumentos e chaves para o corpo.",
    2)

  /** Catalog order is display order and "next mission" precedence. */
  const Missions: seq<Mission> := [M001, M002, M003]

  const Badges: seq<Badge> := [
    Badge("b001", "Iniciado", "🌱", "Completou o treinamento básico e abriu o Portal."),
    Badge("b002", "Criptógrafo", "🔓", "Quebrou a cifra binária com sucesso."),
    Badge("b003", "Arquiteto", "🏗️", "Alcançou o nível 5 de acesso ao sistema."),
    Badge("b004", "Caçador", "🧭", "Encontrou todas as pistas escondidas na web.")
  ]

  /** Entry N is the total XP needed to leave level N; entry 0 is unused. */
  const LevelThresholds: seq<int> := [0, 100, 300, 600, 1000, 1500]

  function MissionIds(catalog: seq<Mission>): (ids: seq<string>)
    ensures |ids| == |catalog|
    ensures forall i :: 0 <= i < |catalog| ==> ids[i] == catalog[i].id
  {
    if catalog == [] then [] else [catalog[0].id] + MissionIds(catalog[1..])
  }

  function BadgeIds(catalog: seq<Badge>): seq<string>
  {
    seq(|catalog|, i requires 0 <= i < |catalog| => catalog[i].id)
  }

  /** Sum of every reward the catalog offers. */
  function TotalReward(catalog: seq<Mission>): int
  {
    if catalog == [] then 0 else catalog[0].xpReward + TotalReward(catalog[1..])
  }

  lemma InitialStateFacts()
    ensures InitialState.level == 1 && InitialState.currentXp == 0
    ensures InitialState.completedMissions == [] && InitialState.unlockedBadges == []
    ensures InitialState.username == "Guest_Engineer"
  {
  }

  lemma MissionCatalogFacts()
    ensures MissionIds(Missions) == ["m001", "m002", "m003"]
    ensures NoDuplicates(MissionIds(Missions))
    ensures [M001.xpReward, M002.xpReward, M003.xpReward] == [100, 150, 300]
    ensures [M001.requiredLevel, M002.requiredLevel, M003.requiredLevel] == [1, 1, 2]
    ensures forall m :: m in Missions ==> m.xpReward >= 0
  {
  }

  lemma BadgeCatalogFacts()
    ensures BadgeIds(Badges) == ["b001", "b002", "b003", "b004"]
    ensures NoDuplicates(BadgeIds(Badges))
  {
  }

  lemma ThresholdsIncreasing()
    ensures LevelThresholds == [0, 100, 300, 600, 1000, 1500]
    ensures forall i, j :: 0 <= i < j < |LevelThresholds| ==> LevelThresholds[i] < LevelThresholds[j]
  {
  }

  /** All rewards together stay below the threshold for leaving level 3. */
  lemma TotalRewardBelowLevelThree()
    ensures TotalReward(Missions) == 550 < LevelThresholds[3]
  {
    assert TotalReward([M003]) == 300 by { assert [M003][1..] == []; }
    assert TotalReward([M002, M003]) == 450 by { assert [M002, M003][1..] == [M003]; }
    assert Missions[1..] == [M002, M003];
  }
}
