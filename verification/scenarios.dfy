/** Worked examples proved about small concrete models. */
module Scenarios {
  import opened Wrappers
  import opened Text
  import opened BeanModel
  import opened PathExtension

  const Animal: Bean := Bean(Plain("Animal"), None, [Property("name", Plain("string"))])

  lemma SingleBeanOrder()
    ensures Acyclic([Animal])
    ensures Order([Animal]) == [0]
  {
    var beans := [Animal];
    assert AncestorCount(beans, 0, 1) == Some(0);
    var chain := ChainOrder(beans, {}, 0);
    assert chain == [0];
    assert {} + Elements(chain) == {0};
    assert PassOrder(beans, 1, {0}) == [];
    assert PassOrder(beans, 0, {}) == chain + PassOrder(beans, 1, {0});
  }

  lemma SingleBeanHeader()
    ensures Header([Animal], 0) == "class AnimalFields extends Fields {"
  {
    assert ParentOf([Animal], 0).None?;
  }

  lemma SingleBeanField()
    ensures PropertyLine([Animal], Unit, Animal.properties[0]) == "    name = new Fields(this, \"name\");"
  {
    assert Lookup([Animal], Plain("string")).None?;
    FieldLineText();
  }

  lemma FieldLineText()
    ensures Unit + "name" + " = new Fields(this, \"" + "name" + "\");" == "    name = new Fields(this, \"name\");"
  {
  }

  /** A bean with no parent and one property whose type is no bean. */
  lemma SingleBeanBlock()
    ensures ClassBlock([Animal], Unit, 0) == [
      "",
      "class AnimalFields extends Fields {",
      ConstructorLine(Unit),
      "    name = new Fields(this, \"name\");",
      "}"]
  {
    SingleBeanHeader();
    SingleBeanField();
  }

  lemma SingleBeanConstant()
    ensures ConstantLines([Animal], false) == ["const Animal = new AnimalFields();"]
  {
    assert ConstantLine(Animal, false) == "const Animal = new AnimalFields();";
  }

  /** The model of a one-bean pass: the `Fields` class, the bean's block, its constant. */
  lemma SingleBeanScenario()
    ensures Acyclic([Animal])
    ensures EmitElements([Animal], Unit, false) ==
      FieldsTemplate.EmitFieldsClass(Unit) + [
      "",
      "class AnimalFields extends Fields {",
      ConstructorLine(Unit),
      "    name = new Fields(this, \"name\");",
      "}",
      "const Animal = new AnimalFields();"]
  {
    SingleBeanOrder();
    SingleBeanBlock();
    SingleBeanConstant();
    var beans := [Animal];
    assert Blocks(beans, Unit, [0]) == ClassBlock(beans, Unit, 0) by {
      assert [0][..0] == [];
    }
    assert EmitElements(beans, Unit, false)
      == FieldsTemplate.EmitFieldsClass(Unit) + ClassBlock(beans, Unit, 0) + ConstantLines(beans, false);
  }

  const Dog: Bean := Bean(Plain("Dog"), Some(Plain("Animal")), [Property("owner", Plain("Animal"))])

  lemma AnimalLookup()
    ensures Lookup([Dog, Animal], Plain("Animal")) == Some(1)
  {
    var beans := [Dog, Animal];
    assert beans[0].name != Plain("Animal") by {
      assert |beans[0].name.text| != |"Animal"|;
    }
    assert FindFrom(beans, Plain("Animal"), 1) == Some(1);
  }

  lemma ParentListedLaterOrder()
    ensures Acyclic([Dog, Animal])
    ensures Order([Dog, Animal]) == [1, 0]
  {
    var beans := [Dog, Animal];
    AnimalLookup();
    assert ParentOf(beans, 0) == Some(1);
    assert ParentOf(beans, 1) == None;
    assert AncestorCount(beans, 1, 1) == Some(0);
    assert AncestorCount(beans, 0, 2) == Some(1);
    assert AncestorCount(beans, 1, 2) == Some(0);
    var chain := ChainOrder(beans, {}, 0);
    assert ChainOrder(beans, {}, 1) == [1];
    assert chain == [1, 0];
    assert {} + Elements(chain) == {0, 1};
    assert ChainOrder(beans, {0, 1}, 1) == [];
    assert PassOrder(beans, 2, {0, 1}) == [];
    assert PassOrder(beans, 1, {0, 1}) == [] + PassOrder(beans, 2, {0, 1} + Elements([]));
    assert PassOrder(beans, 0, {}) == chain + PassOrder(beans, 1, {0, 1});
  }

  lemma DogHeader()
    ensures Header([Dog, Animal], 0) == "class DogFields extends AnimalFields {"
  {
    AnimalLookup();
    assert ParentOf([Dog, Animal], 0) == Some(1);
    assert "class " + "Dog" + "Fields extends " + "Animal" + "Fields {" == "class DogFields extends AnimalFields {";
  }

  lemma DogField()
    ensures PropertyLine([Dog, Animal], Unit, Dog.properties[0]) == "    owner = new AnimalFields(this, \"owner\");"
  {
    AnimalLookup();
    assert SimpleName([Dog, Animal][1].name) == "Animal";
    DogFieldText();
  }

  /** Dog's field line, assembled from its pieces, is the expected text; shown in two halves. */
  lemma DogFieldText()
    ensures Unit + "owner" + " = new " + "Animal" + "Fields(this, \"" + "owner" + "\");"
         == "    owner = new AnimalFields(this, \"owner\");"
  {
    DogFieldHead();
    DogFieldTail();
  }

  /** The first half: indentation, field name and the start of the class name. */
  lemma DogFieldHead()
    ensures Unit + "owner" + " = new " + "Animal" == "    owner = new Animal"
  {
  }

  /** The second half: the rest of the class name and the constructor arguments. */
  lemma DogFieldTail()
    ensures "    owner = new Animal" + "Fields(this, \"" + "owner" + "\");"
         == "    owner = new AnimalFields(this, \"owner\");"
  {
  }

  /**
   * A child listed before its parent: the parent's class is still written
   * first, the child extends it, and a property typed as the parent bean
   * uses the parent's class.
   */
  lemma ParentListedLaterScenario()
    ensures Acyclic([Dog, Animal])
    ensures Order([Dog, Animal]) == [1, 0]
    ensures Header([Dog, Animal], 0) == "class DogFields extends AnimalFields {"
    ensures PropertyLine([Dog, Animal], Unit, Dog.properties[0]) == "    owner = new AnimalFields(this, \"owner\");"
  {
    ParentListedLaterOrder();
    DogHeader();
    DogField();
  }
}
