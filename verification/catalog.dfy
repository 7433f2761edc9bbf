/**
 The fixed catalog of scenarios: each scenario names a business, describes
 it, and lists the problems reported against it with their incident counts.
 */
module Catalog {
  import opened Wrappers
  import opened Sequences

  /** One reported problem and how many complaints it received. */
  datatype Problem = Problem(name: string, description: string, incidents: nat)

  /** A named scenario with its problems in catalog order. */
  datatype Scenario = Scenario(name: string, description: string, problems: seq<Problem>)

  /** The metal-mug factory's complaints. */
  const MugFactoryProblems: seq<Problem> := [
    Problem("Producto rayado", "Tazas llegan con rayones visibles", 25),
    Problem("Mal ensamblaje", "La tapa no cierra correctamente", 18),
    Problem("Demora en entrega", "Los pedidos llegan tarde", 30),
    Problem("Fuga por válvula", "Las tazas gotean durante su uso", 12),
    Problem("Atención al cliente", "Respuestas tardías o poco útiles", 9),
    Problem("Empaque deficiente", "Cajas dañadas o sin instrucciones", 6)
  ]

  /** The private clinic's complaints. */
  const ClinicProblems: seq<Problem> := [
    Problem("Retrasos en consultas", "El doctor tarda en atender", 22),
    Problem("Errores en facturación", "Cobros incorrectos", 16),
    Problem("Falta de camas", "No hay disponibilidad", 24),
    Problem("Mal trato del personal", "Falta de empatía", 15),
    Problem("Errores en recetas", "Medicamentos equivocados", 12),
    Problem("Poca limpieza", "Quejas por sanitarios", 7)
  ]

  /** The online shop's complaints. */
  const ShopProblems: seq<Problem> := [
    Problem("Retraso en entregas", "Llegan después de la fecha", 28),
    Problem("Producto equivocado", "No coincide con lo comprado", 21),
    Problem("Falla en pagos", "Problemas con tarjeta o PayPal", 10),
    Problem("Atención por chat lenta", "Soporte tarda en responder", 12),
    Problem("Producto dañado", "Empaque o contenido roto", 18),
    Problem("Dificultad para devolver", "Proceso complicado", 8)
  ]

  /** The catalog, in the order the selector lists it. */
  const Scenarios: seq<Scenario> := [
    Scenario(
      "Fábrica de tazas metálicas",
      "Una empresa de manufactura que produce tazas metálicas antivuelco ha recibido múltiples quejas por defectos de calidad y problemas logísticos.",
      MugFactoryProblems),
    Scenario(
      "Clínica privada",
      "Una clínica ha recibido varias quejas de pacientes sobre la atención médica, los procesos administrativos y la limpieza.",
      ClinicProblems),
    Scenario(
      "Tienda online",
      "Una plataforma de ventas en línea enfrenta quejas constantes relacionadas con el proceso de entrega y postventa.",
      ShopProblems)
  ]

  /** The scenario names in catalog order: the choices of the selector. */
  function Names(cat: seq<Scenario>): (names: seq<string>)
    ensures |names| == |cat|
    ensures forall i :: 0 <= i < |cat| ==> names[i] == cat[i].name
  {
    if cat == [] then [] else [cat[0].name] + Names(cat[1..])
  }

  /** The first scenario called `name`, or `None` when the catalog has no such key. */
  function Lookup(cat: seq<Scenario>, name: string): (r: Option<Scenario>)
    ensures r.None? <==> name !in Names(cat)
    ensures r.Some? ==> r.value in cat && r.value.name == name
  {
    if cat == [] then None
    else if cat[0].name == name then Some(cat[0])
    else
      assert Names(cat) == [cat[0].name] + Names(cat[1..]);
      Lookup(cat[1..], name)
  }

  /** The catalog is a dictionary: its keys are distinct. */
  lemma CatalogKeysDistinct()
    ensures Distinct(Names(Scenarios))
  {
  }

  /** Looking up any listed name yields the scenario stored under it. */
  lemma {:induction false} LookupListed(cat: seq<Scenario>, i: nat)
    requires i < |cat|
    requires Distinct(Names(cat))
    ensures Lookup(cat, cat[i].name) == Some(cat[i])
    decreases i
  {
    if i > 0 {
      assert Names(cat)[0] != Names(cat)[i];
      assert Names(cat[1..]) == Names(cat)[1..];
      LookupListed(cat[1..], i - 1);
    }
  }

  /** Every option of the scenario selector finds its own catalog scenario. */
  lemma CatalogLookup(i: nat)
    requires i < |Scenarios|
    ensures Scenarios[i].name in Names(Scenarios)
    ensures Lookup(Scenarios, Scenarios[i].name) == Some(Scenarios[i])
  {
    CatalogKeysDistinct();
    LookupListed(Scenarios, i);
  }

  /**
   Within every scenario of the catalog, problem names are distinct,
   incident counts are distinct and positive.
   */
  lemma CatalogProblemsWellFormed(sc: Scenario)
    requires sc in Scenarios
    ensures forall i, j :: 0 <= i < j < |sc.problems| ==>
              sc.problems[i].name != sc.problems[j].name
              && sc.problems[i].incidents != sc.problems[j].incidents
    ensures forall i :: 0 <= i < |sc.problems| ==> sc.problems[i].incidents > 0
  {
  }
}
