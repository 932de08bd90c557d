/** The habit library every user's protocol is drawn from (`constants.ts`):
    25 entries with their fixed titles, descriptions, tips, targets and
    weights, and the lookup by id. */
module Catalog {
  import opened Types

  const Library: seq<Template> := [
    Template("sleep_7h", "Sono Restaurador", Saude, Daily, 1, "bool",
      Some("Dormir 7-9h com qualidade"),
      Some("Sono profundo remove toxinas cerebrais e consolida memória."),
      Morning, 3),
    Template("hydration", "Hidratação Matinal", Saude, Daily, 1, "bool",
      Some("500ml de água ao acordar"),
      Some("Reidrata tecidos e ativa metabolismo após jejum noturno."),
      Morning, 1),
    Template("sunlight", "Luz Natural", Saude, Daily, 1, "bool",
      Some("10 min de sol pela manhã"),
      Some("Regula cortisol e define o relógio biológico para a noite."),
      Morning, 1),
    Template("cold_shower", "Banho Frio", Saude, Weekly, 5, "x",
      Some("2 min de água fria ao final"),
      Some("Aumenta dopamina em 250% e melhora resiliência."),
      Morning, 1),
    Template("exercise_light", "Movimento Leve", Saude, Daily, 1, "bool",
      Some("Caminhada ou alongamento (20min)"),
      Some("Caminhar reduz atividade na amígdala (ansiedade)."),
      Afternoon, 2),
    Template("exercise_heavy", "Treino Intenso", Saude, Weekly, 5, "x",
      Some("Musculação ou Cardio (45min)"),
      Some("Crucial para saúde mitocondrial e longevidade."),
      Afternoon, 3),
    Template("diet_clean", "Nutrição Limpa", Saude, Daily, 1, "bool",
      Some("Sem ultraprocessados ou açúcar"),
      None,
      Afternoon, 2),
    Template("supplements", "Suplementação", Saude, Daily, 1, "bool",
      Some("Creatina e Omega 3"),
      None,
      Morning, 1),
    Template("meditation", "Meditação", Mente, Weekly, 5, "x",
      Some("10 min de silêncio/mindfulness"),
      Some("Aumenta massa cinzenta no córtex pré-frontal."),
      Afternoon, 1),
    Template("gratitude", "Apreciar a Vida", Mente, Daily, 1, "bool",
      Some("Contemplar o positivo do dia"),
      Some("Treina o cérebro para identificar oportunidades."),
      Evening, 1),
    Template("no_screens_bed", "Higiene do Sono", Mente, Daily, 1, "bool",
      Some("Sem telas 1h antes de dormir"),
      Some("Luz azul inibe melatonina e prejudica sono profundo."),
      Evening, 2),
    Template("reading", "Leitura", Mente, Daily, 1, "bool",
      Some("Ler 10 páginas"),
      None,
      Evening, 1),
    Template("partner_connection", "Conexão Intencional", Social, Daily, 1, "bool",
      Some("Tempo de qualidade com parceiro(a)"),
      None,
      Evening, 3),
    Template("friend_meet", "Encontro Presencial", Social, Weekly, 2, "x",
      Some("Ver amigos pessoalmente"),
      None,
      AnyTime, 3),
    Template("friend_call", "Contato Remoto", Social, Weekly, 1, "x",
      Some("Ligar ou mandar mensagem"),
      None,
      AnyTime, 1),
    Template("family_time", "Tempo em Família", Social, Weekly, 3, "x",
      Some("Ligar ou visitar parentes"),
      None,
      AnyTime, 2),
    Template("social_event", "Vida Social", Social, Weekly, 1, "x",
      Some("Sair de casa / Evento social"),
      None,
      AnyTime, 3),
    Template("kindness", "Gentileza", Social, Daily, 1, "bool",
      Some("Ser gentil nas interações"),
      Some("Altruísmo libera oxitocina e reduz estresse."),
      AnyTime, 1),
    Template("no_nicotine", "Zero Nicotina", Vicios, Daily, 1, "bool",
      Some("Manter-se livre do vício"),
      None,
      AnyTime, 3),
    Template("avoid_alcohol", "Zero Álcool", Vicios, Daily, 1, "bool",
      Some("Marque se NÃO bebeu hoje"),
      None,
      AnyTime, 2),
    Template("avoid_cannabis", "Zero Cannabis", Vicios, Daily, 1, "bool",
      Some("Marque se NÃO usou hoje"),
      None,
      AnyTime, 2),
    Template("avoid_games", "Zero Jogos", Vicios, Daily, 1, "bool",
      Some("Marque se NÃO jogou hoje"),
      None,
      AnyTime, 2),
    Template("avoid_shorts", "Zero Reels/TikTok", Vicios, Daily, 1, "bool",
      Some("Marque se NÃO assistiu hoje"),
      None,
      AnyTime, 2),
    Template("avoid_yt", "Zero YouTube", Vicios, Daily, 1, "bool",
      Some("Marque se NÃO assistiu hoje"),
      None,
      AnyTime, 2),
    Template("environment", "Ambiente", Produtividade, Daily, 1, "bool",
      Some("Organizar espaço físico"),
      None,
      Morning, 1)
  ]

  /** The first library entry with the id, if any. */
  function LibraryFind(id: string): (r: Option<Template>)
    ensures r.Some? ==> r.value in Library && r.value.id == id
    ensures r.None? <==> forall i :: 0 <= i < |Library| ==> Library[i].id != id
  {
    FindIn(Library, id)
  }

  function FindIn(s: seq<Template>, id: string): (r: Option<Template>)
    ensures r.Some? ==> r.value in s && r.value.id == id
    ensures r.None? <==> forall i :: 0 <= i < |s| ==> s[i].id != id
  {
    if s == [] then None
    else if s[0].id == id then Some(s[0])
    else
      var r := FindIn(s[1..], id);
      assert forall i :: 1 <= i < |s| ==> s[i] == s[1..][i - 1];
      r
  }

  /** The library's ids, in library order. */
  const LibraryIds: seq<string> := [
    "sleep_7h", "hydration", "sunlight", "cold_shower", "exercise_light", "exercise_heavy", "diet_clean", "supplements", "meditation", "gratitude", "no_screens_bed", "reading", "partner_connection", "friend_meet", "friend_call", "family_time", "social_event", "kindness", "no_nicotine", "avoid_alcohol", "avoid_cannabis", "avoid_games", "avoid_shorts", "avoid_yt", "environment"]

  lemma LibraryIdsMatch()
    ensures |Library| == |LibraryIds| == 25
    ensures forall i :: 0 <= i < |Library| ==> Library[i].id == LibraryIds[i]
  {
  }

  lemma IdListDistinct()
    ensures forall i, j :: 0 <= i < j < |LibraryIds| ==> LibraryIds[i] != LibraryIds[j]
  {
  }

  /** Ids identify library entries. */
  lemma LibraryIdsDistinct()
    ensures forall i, j :: 0 <= i < j < |Library| ==> Library[i].id != Library[j].id
  {
    LibraryIdsMatch();
    IdListDistinct();
  }

  /** Looking up the id of the k-th entry finds that entry, not an earlier
      one with the same id: there is none. */
  lemma Found(id: string, k: int)
    requires 0 <= k < |LibraryIds| && LibraryIds[k] == id
    ensures LibraryFind(id) == Some(Library[k])
  {
    LibraryIdsMatch();
    LibraryIdsDistinct();
    var r := LibraryFind(id);
    assert Library[k].id == id;
    var j :| 0 <= j < |Library| && Library[j] == r.value;
    assert j == k;
  }

  /** The two limit habits the onboarding rules ask for are not in the
      library. */
  lemma LimitIdsAbsent()
    ensures LibraryFind("limit_alcohol").None?
    ensures LibraryFind("limit_shorts").None?
  {
    LibraryIdsMatch();
    assert forall i :: 0 <= i < |LibraryIds| ==> LibraryIds[i] != "limit_alcohol" && LibraryIds[i] != "limit_shorts";
  }

  /** Every weight is low, medium or high, no entry is a limit, and every
      entry has a declared time of day. */
  lemma LibraryShape()
    ensures forall i :: 0 <= i < |Library| ==> 1 <= Library[i].weight <= 3
    ensures forall i :: 0 <= i < |Library| ==> Library[i].unit != UnitMax
    ensures forall i :: 0 <= i < |Library| ==> DeclaredTime(Library[i].timeOfDay)
  {
  }

  /** Daily entries are single checks, Weekly entries counts with a positive
      target, and every abstinence entry is a Daily check. */
  lemma LibraryDailyEntries()
    ensures forall i :: 0 <= i < |Library| && Library[i].frequency == Daily ==>
              Library[i].targetCount == 1 && Library[i].unit == UnitBool
  {
  }

  lemma LibraryWeeklyEntries()
    ensures forall i :: 0 <= i < |Library| && Library[i].frequency == Weekly ==>
              Library[i].targetCount >= 1 && Library[i].unit == UnitCount
  {
  }

  lemma LibraryAbstinenceEntries()
    ensures forall i :: 0 <= i < |Library| && Library[i].category == Vicios ==>
              Library[i].frequency == Daily && Library[i].unit == UnitBool
  {
  }
}
